/**
 * What a notification comes to for someone who knows only its arguments: who is live afterwards,
 * and which slots it has run, told by the operations others make meanwhile and by which slots
 * answer that they have expired.
 */
module Notification {
  import opened ObserverModel

  /** What other threads and callbacks do; an id never given out cannot be unsubscribed. */
  datatype Op<S> = ToConnect(slot: S) | ToUnsubscribe(id: nat)

  /** The subscriptions that the operations make, ids being given out from `nextId` on. */
  function Connected<S>(ops: seq<Op<S>>, nextId: nat): seq<Entry<S>> {
    if ops == [] then []
    else match ops[0]
      case ToConnect(slot) => [Entry(slot, nextId)] + Connected(ops[1..], nextId + 1)
      case ToUnsubscribe(_) => Connected(ops[1..], nextId)
  }

  /** The ids that the operations unsubscribe. */
  function Unsubscribed<S>(ops: seq<Op<S>>, nextId: nat): set<nat> {
    if ops == [] then {}
    else match ops[0]
      case ToConnect(_) => Unsubscribed(ops[1..], nextId + 1)
      case ToUnsubscribe(id) => (if id < nextId then {id} else {}) + Unsubscribed(ops[1..], nextId)
  }

  /** The operations as steps. */
  function StepsOf<S>(ops: seq<Op<S>>, nextId: nat): seq<Step<S>> {
    if ops == [] then []
    else match ops[0]
      case ToConnect(slot) => [Connect(slot)] + StepsOf(ops[1..], nextId + 1)
      case ToUnsubscribe(id) =>
        (if id < nextId then [Unsubscribe(id)] else []) + StepsOf(ops[1..], nextId)
  }

  /** The ids given out by then. */
  function After<S>(ops: seq<Op<S>>, nextId: nat): nat {
    nextId + |Connected(ops, nextId)|
  }

  lemma {:induction false} ConnectedAppend<S>(a: seq<Op<S>>, b: seq<Op<S>>, nextId: nat)
    ensures Connected(a + b, nextId) == Connected(a, nextId) + Connected(b, After(a, nextId))
    ensures Unsubscribed(a + b, nextId) == Unsubscribed(a, nextId) + Unsubscribed(b, After(a, nextId))
  {
    if a == [] {
      assert a + b == b;
    } else {
      assert (a + b)[0] == a[0] && (a + b)[1..] == a[1..] + b;
      ConnectedAppend(a[1..], b, if a[0].ToConnect? then nextId + 1 else nextId);
    }
  }

  lemma {:induction false} ConnectedIds<S>(ops: seq<Op<S>>, nextId: nat)
    ensures forall e :: e in Connected(ops, nextId) ==> nextId <= e.id < After(ops, nextId)
    ensures forall id :: id in Unsubscribed(ops, nextId) ==> id < After(ops, nextId)
  {
    if ops != [] {
      ConnectedIds(ops[1..], if ops[0].ToConnect? then nextId + 1 else nextId);
    }
  }

  /**
   * From the live subscriptions `live` the operations, and the expiry of those in `expired`, lead
   * to `later`.
   */
  ghost predicate Leads<S>(live: seq<Entry<S>>, nextId: nat, ops: seq<Op<S>>, expired: set<nat>,
                           later: seq<Entry<S>>, laterId: nat)
  {
    && later == Minus(live + Connected(ops, nextId), Unsubscribed(ops, nextId) + expired)
    && laterId == After(ops, nextId)
  }

  lemma LeadsOn<S>(live: seq<Entry<S>>, n: nat, a: seq<Op<S>>, x: set<nat>, mid: seq<Entry<S>>, m: nat,
                   b: seq<Op<S>>, y: set<nat>, later: seq<Entry<S>>, k: nat)
    requires Leads(live, n, a, x, mid, m) && Leads(mid, m, b, y, later, k) && forall id :: id in x ==> id < m
    ensures Leads(live, n, a + b, x + y, later, k)
  {
    var c, u, d, v := Connected(a, n), Unsubscribed(a, n), Connected(b, m), Unsubscribed(b, m);
    ConnectedAppend(a, b, n);
    ConnectedIds(a, n);
    ConnectedIds(b, m);
    MinusNothing(d, u + x);
    MinusAppend(live + c, d, u + x);
    MinusMinus(live + c + d, u + x, v + y);
    assert live + c + d == live + (c + d);
    assert u + x + (v + y) == u + v + (x + y);
  }

  lemma LeadsNowhere<S>(live: seq<Entry<S>>, nextId: nat)
    ensures Leads(live, nextId, [], {}, live, nextId)
  {
    var none: set<nat> := {};
    var ops: seq<Op<S>> := [];
    MinusNothing(live, none);
    assert Connected(ops, nextId) == [] && Unsubscribed(ops, nextId) + none == none && live + [] == live;
  }

  /** One more expiry. */
  lemma LeadsExpired<S>(live: seq<Entry<S>>, n: nat, ops: seq<Op<S>>, mid: seq<Entry<S>>, k: nat, x: set<nat>)
    requires Leads(live, n, ops, {}, mid, k)
    ensures Leads(live, n, ops, x, Minus(mid, x), k)
  {
    var none: set<nat> := {};
    MinusMinus(live + Connected(ops, n), Unsubscribed(ops, n) + none, x);
    assert Unsubscribed(ops, n) + none + x == Unsubscribed(ops, n) + x;
  }

  // ----- the operations as steps of the observer

  /** What others do leaves the round where it is. */
  ghost predicate SameRound<S>(s: State<S>, t: State<S>) {
    t.pc == s.pc && t.list == s.list && t.round.ran == s.round.ran && t.round.start == s.round.start
  }

  lemma OneEffect<S>(op: Op<S>, nextId: nat)
    ensures Connected([op], nextId) == if op.ToConnect? then [Entry(op.slot, nextId)] else []
    ensures Unsubscribed([op], nextId) == if op.ToUnsubscribe? && op.id < nextId then {op.id} else {}
  {
    var none: seq<Op<S>>, nothing: seq<Entry<S>> := [], [];
    assert [op][1..] == none && Connected(none, nextId) == nothing && Connected(none, nextId + 1) == nothing;
    assert Unsubscribed(none, nextId) == {} && Unsubscribed(none, nextId + 1) == {};
  }

  lemma ConnectLeads<S>(s: State<S>, slot: S)
    requires Inv(s)
    ensures var ops := [ToConnect(slot)]; var t := Apply(s, Connect(slot));
      && StepsOf(ops, s.nextId) == [Connect(slot)]
      && Inv(t) && SameRound(s, t) && Leads(Live(s), s.nextId, ops, {}, Live(t), t.nextId)
  {
    var ops: seq<Op<S>>, e, none: set<nat> := [ToConnect(slot)], Entry(slot, s.nextId), {};
    OneOp(ops[0], s.nextId);
    OneEffect(ops[0], s.nextId);
    ApplyKeepsInv(s, Connect(slot));
    ApplyRefines(s, Connect(slot));
    assert Unsubscribed(ops, s.nextId) + none == none;
    MinusNothing(Live(s) + [e], none);
  }

  lemma UnsubscribeLeads<S>(s: State<S>, id: nat)
    requires Inv(s)
    ensures var ops := [ToUnsubscribe(id)]; var t := if id < s.nextId then Apply(s, Unsubscribe(id)) else s;
      && StepsOf(ops, s.nextId) == (if id < s.nextId then [Unsubscribe(id)] else [])
      && Inv(t) && SameRound(s, t) && Leads(Live(s), s.nextId, ops, {}, Live(t), t.nextId)
  {
    var ops: seq<Op<S>>, none: set<nat> := [ToUnsubscribe(id)], {};
    OneOp(ops[0], s.nextId);
    OneEffect(ops[0], s.nextId);
    assert Live(s) + [] == Live(s);
    if id < s.nextId {
      ApplyKeepsInv(s, Unsubscribe(id));
      ApplyRefines(s, Unsubscribe(id));
      assert Unsubscribed(ops, s.nextId) + none == {id};
    } else {
      assert Unsubscribed(ops, s.nextId) + none == none;
      MinusNothing(Live(s), none);
    }
  }

  lemma OpLeads<S>(s: State<S>, op: Op<S>)
    requires Inv(s)
    ensures var t := Exec(s, StepsOf([op], s.nextId));
      Inv(t) && SameRound(s, t) && Leads(Live(s), s.nextId, [op], {}, Live(t), t.nextId)
  {
    match op
    case ToConnect(slot) =>
      ConnectLeads(s, slot);
      ExecOne(s, Connect(slot));
    case ToUnsubscribe(id) =>
      UnsubscribeLeads(s, id);
      ExecOne(s, Unsubscribe(id));
  }

  lemma StepsOfCons<S>(op: Op<S>, ops: seq<Op<S>>, nextId: nat)
    ensures StepsOf([op] + ops, nextId) == StepsOf([op], nextId) + StepsOf(ops, After([op], nextId))
  {
    assert ([op] + ops)[0] == op && ([op] + ops)[1..] == ops && [op][1..] == [];
    OneOp(op, nextId);
    assert [] + StepsOf(ops, nextId) == StepsOf(ops, nextId);
  }

  lemma AfterAppend<S>(a: seq<Op<S>>, b: seq<Op<S>>, nextId: nat)
    ensures After(a + b, nextId) == After(b, After(a, nextId))
  {
    ConnectedAppend(a, b, nextId);
  }

  lemma {:induction false} StepsOfAppend<S>(a: seq<Op<S>>, b: seq<Op<S>>, nextId: nat)
    ensures StepsOf(a + b, nextId) == StepsOf(a, nextId) + StepsOf(b, After(a, nextId))
    decreases |a|
  {
    if a == [] {
      assert a + b == b && Connected(a, nextId) == [];
      assert StepsOf(a, nextId) + StepsOf(b, nextId) == StepsOf(b, nextId);
    } else {
      var op, more := a[0], a[1..];
      var m := After([op], nextId);
      assert a == [op] + more && a + b == [op] + (more + b);
      AfterAppend([op], more, nextId);
      StepsOfAppend(more, b, m);
      StepsOfCons(op, more, nextId);
      StepsOfCons(op, more + b, nextId);
      Joined(StepsOf([op], nextId), StepsOf(more, m), StepsOf(b, After(a, nextId)));
    }
  }

  lemma OneMoreOp<S>(done: seq<Op<S>>, op: Op<S>, n0: nat, steps: seq<Step<S>>, n: nat, more: seq<Step<S>>, m: nat)
    requires steps == StepsOf(done, n0) && n == After(done, n0) && more == StepsOf([op], n) && m == After([op], n)
    ensures steps + more == StepsOf(done + [op], n0) && m == After(done + [op], n0)
  {
    StepsOfAppend(done, [op], n0);
    AfterAppend(done, [op], n0);
  }

  lemma Joined<T>(a: seq<T>, b: seq<T>, c: seq<T>)
    ensures a + b + c == a + (b + c)
  {
  }

  lemma OneOp<S>(op: Op<S>, nextId: nat)
    ensures StepsOf([op], nextId) == match op
      case ToConnect(slot) => [Connect(slot)]
      case ToUnsubscribe(id) => if id < nextId then [Unsubscribe(id)] else []
    ensures After([op], nextId) == if op.ToConnect? then nextId + 1 else nextId
  {
    var none: seq<Op<S>>, noSteps: seq<Step<S>> := [], [];
    assert [op][1..] == none;
    match op
    case ToConnect(slot) =>
      assert Connected([op], nextId) == [Entry(slot, nextId)] + Connected(none, nextId + 1);
      assert StepsOf([op], nextId) == [Connect(slot)] + noSteps == [Connect(slot)];
    case ToUnsubscribe(id) =>
      var own: seq<Step<S>> := if id < nextId then [Unsubscribe(id)] else [];
      assert Connected([op], nextId) == Connected(none, nextId);
      assert StepsOf([op], nextId) == own + noSteps == own;
  }

  lemma {:induction false} OpsLead<S>(s: State<S>, ops: seq<Op<S>>)
    requires Inv(s)
    ensures var t := Exec(s, StepsOf(ops, s.nextId));
      Inv(t) && SameRound(s, t) && Leads(Live(s), s.nextId, ops, {}, Live(t), t.nextId)
    decreases |ops|
  {
    if ops == [] {
      LeadsNowhere(Live(s), s.nextId);
    } else {
      var op, more := ops[0], ops[1..];
      assert ops == [op] + more;
      OpLeads(s, op);
      var m := Exec(s, StepsOf([op], s.nextId));
      OpsLead(m, more);
      StepsOfCons(op, more, s.nextId);
      ExecAppend(s, StepsOf([op], s.nextId), StepsOf(more, m.nextId));
      var t := Exec(m, StepsOf(more, m.nextId));
      ThenLeads(s, [op], m, more, {}, t);
      assert m.nextId == After([op], s.nextId);
      assert Exec(s, StepsOf(ops, s.nextId)) == t;
    }
  }

  // ----- one turn of the round's loop

  lemma CheckLeads<S>(s: State<S>)
    requires Inv(s) && s.pc.At? && s.pc.k < |s.list|
    ensures var c := Apply(s, Check); var e := s.list[s.pc.k];
      && Inv(c) && Live(c) == Live(s) && c.nextId == s.nextId && c.list == s.list
      && c.pc == (if e in Live(s) then Running(s.pc.k) else Erasing(s.pc.k))
      && c.round.ran == s.round.ran + (if e in Live(s) then [e] else [])
  {
    ApplyKeepsInv(s, Check);
    ApplyRefines(s, Check);
    VisitedLive(s);
    assert s.round.ran + [] == s.round.ran;
  }

  lemma LeavingLeads<S>(d: State<S>, k: nat, expired: bool)
    requires Inv(d) && k < |d.list| && (d.pc == Running(k) || d.pc == Erasing(k))
    ensures var runs := d.pc.Running?; var t := Apply(d, if runs then Done(expired) else Erase);
      && Inv(t) && t.nextId == d.nextId && t.round.ran == d.round.ran
      && Live(t) == Minus(Live(d), if runs && expired then {d.list[k].id} else {})
      && t.pc == At(if runs && !expired then k + 1 else k)
      && t.list == if runs && !expired then d.list else WithoutAt(d.list, k)
  {
    var last: Step<S> := if d.pc.Running? then Done(expired) else Erase;
    ApplyKeepsInv(d, last);
    ApplyRefines(d, last);
    MinusNothing(Live(d), {});
  }

  /**
   * A turn at the `k`-th entry: others act, the entry is checked and run unless it is found
   * removed, others act, and the entry is left, or erased if it is found removed or expired.
   */
  ghost predicate TurnIs<S>(s: State<S>, k: nat, before: seq<Op<S>>, during: seq<Op<S>>,
                            expired: Entry<S> -> bool, ran: seq<Entry<S>>, t: State<S>)
  {
    && k < |s.list|
    && var e, m := s.list[k], Exec(s, StepsOf(before, s.nextId));
      && ran == (if e.id in m.removed then [] else [e])
      && t == Exec(m, [Check] + StepsOf(during, m.nextId) + [if e.id in m.removed then Erase else Done(expired(e))])
  }

  /** The ids of the entries that were run and then said to have expired. */
  function Expired<S(!new)>(ran: seq<Entry<S>>, expired: Entry<S> -> bool): set<nat> {
    set i | 0 <= i < |ran| && expired(ran[i]) :: ran[i].id
  }

  /** The turn from the check on. */
  lemma CheckedTurn<S(!new)>(m: State<S>, k: nat, during: seq<Op<S>>, expired: bool)
    requires Inv(m) && m.pc == At(k) && k < |m.list|
    ensures var e := m.list[k]; var runs := e in Live(m);
      var t := Exec(m, [Check] + StepsOf(during, m.nextId) + [if e.id in m.removed then Erase else Done(expired)]);
      && runs == (e.id !in m.removed) && Inv(t)
      && Leads(Live(m), m.nextId, during, if runs && expired then {e.id} else {}, Live(t), t.nextId)
      && t.pc == At(if runs && !expired then k + 1 else k)
      && t.list == if runs && !expired then m.list else WithoutAt(m.list, k)
  {
    var e := m.list[k];
    var last: Step<S> := if e.id in m.removed then Erase else Done(expired);
    VisitedLive(m);
    CheckLeads(m);
    var c := Apply(m, Check);
    OpsLead(c, during);
    var d := Exec(c, StepsOf(during, c.nextId));
    LeavingLeads(d, k, expired);
    LeadsExpired(Live(m), m.nextId, during, Live(d), d.nextId, if e in Live(m) && expired then {e.id} else {});
    ExecTurn(m, during, last);
  }

  lemma ExecTurn<S>(m: State<S>, during: seq<Op<S>>, last: Step<S>)
    ensures Exec(m, [Check] + StepsOf(during, m.nextId) + [last])
      == Apply(Exec(Apply(m, Check), StepsOf(during, m.nextId)), last)
  {
    ExecOne(m, Check);
    ExecAppend(m, [Check], StepsOf(during, m.nextId));
    ExecAppend(m, [Check] + StepsOf(during, m.nextId), [last]);
    ExecOne(Exec(Apply(m, Check), StepsOf(during, m.nextId)), last);
  }

  lemma ExpiredOne<S(!new)>(e: Entry<S>, runs: bool, expired: Entry<S> -> bool)
    ensures Expired(if runs then [e] else [], expired) == if runs && expired(e) then {e.id} else {}
  {
    var ran := if runs then [e] else [];
    assert runs ==> ran[0] == e;
  }

  lemma ExpiredMore<S(!new)>(a: seq<Entry<S>>, b: seq<Entry<S>>, expired: Entry<S> -> bool)
    ensures Expired(a + b, expired) == Expired(a, expired) + Expired(b, expired)
  {
    var c := a + b;
    forall id | id in Expired(c, expired) ensures id in Expired(a, expired) + Expired(b, expired) {
      var i :| 0 <= i < |c| && expired(c[i]) && c[i].id == id;
      if i < |a| {
        assert a[i] == c[i];
      } else {
        assert b[i - |a|] == c[i];
      }
    }
    forall id | id in Expired(a, expired) ensures id in Expired(c, expired) {
      var i :| 0 <= i < |a| && expired(a[i]) && a[i].id == id;
      assert c[i] == a[i];
    }
    forall id | id in Expired(b, expired) ensures id in Expired(c, expired) {
      var i :| 0 <= i < |b| && expired(b[i]) && b[i].id == id;
      assert c[|a| + i] == b[i];
    }
  }

  /** Whether the entry a turn is at is still live once others have acted. */
  lemma LiveBefore<S>(s: State<S>, k: nat, before: seq<Op<S>>)
    requires Inv(s) && s.pc == At(k) && k < |s.list|
    ensures var m := Exec(s, StepsOf(before, s.nextId)); var e := s.list[k];
      e in Live(m) <==> StaysLive(Live(s), e, s.nextId, before)
  {
    var e, none: set<nat> := s.list[k], {};
    OpsLead(s, before);
    ConnectedIds(before, s.nextId);
    assert e in s.list + s.added;
    MinusMembers(Live(s) + Connected(before, s.nextId), Unsubscribed(before, s.nextId) + none, e);
  }

  /** What a turn comes to. */
  lemma TurnLeads<S(!new)>(s: State<S>, k: nat, before: seq<Op<S>>, during: seq<Op<S>>,
                           expired: Entry<S> -> bool, ran: seq<Entry<S>>, t: State<S>)
    requires Inv(s) && s.pc == At(k) && TurnIs(s, k, before, during, expired, ran, t)
    ensures var e := s.list[k]; var runs := StaysLive(Live(s), e, s.nextId, before);
      && ran == (if runs then [e] else []) && Inv(t)
      && Leads(Live(s), s.nextId, before + during, Expired(ran, expired), Live(t), t.nextId)
      && t.pc == At(if runs && !expired(e) then k + 1 else k)
      && t.list == if runs && !expired(e) then s.list else WithoutAt(s.list, k)
  {
    var e, m := s.list[k], Exec(s, StepsOf(before, s.nextId));
    OpsLead(s, before);
    LiveBefore(s, k, before);
    CheckedTurn(m, k, during, expired(e));
    ExpiredOne(e, e in Live(m), expired);
    ThenLeads(s, before, m, during, Expired(ran, expired), t);
  }

  lemma ThenLeads<S>(s: State<S>, a: seq<Op<S>>, m: State<S>, b: seq<Op<S>>, x: set<nat>, t: State<S>)
    requires Leads(Live(s), s.nextId, a, {}, Live(m), m.nextId) && Leads(Live(m), m.nextId, b, x, Live(t), t.nextId)
    ensures Leads(Live(s), s.nextId, a + b, x, Live(t), t.nextId)
  {
    var none: set<nat> := {};
    LeadsOn(Live(s), s.nextId, a, none, Live(m), m.nextId, b, x, Live(t), t.nextId);
    assert none + x == x;
  }

  // ----- the whole loop

  /** What others do until the loop has made `n` turns. */
  function RoundOps<S>(between: nat -> seq<Op<S>>, during: nat -> seq<Op<S>>, n: nat): seq<Op<S>> {
    if n == 0 then [] else RoundOps(between, during, n - 1) + (between(n - 1) + during(n - 1))
  }

  /** Those of the first `n` that are chosen. */
  function Chosen<T>(all: seq<T>, chosen: nat -> bool, n: nat): seq<T>
    requires n <= |all|
  {
    if n == 0 then [] else Chosen(all, chosen, n - 1) + if chosen(n - 1) then [all[n - 1]] else []
  }

  lemma {:induction false} ChosenMembers<T>(all: seq<T>, chosen: nat -> bool, n: nat, e: T)
    requires n <= |all| && e in Chosen(all, chosen, n)
    ensures exists i: nat :: i < n && chosen(i) && all[i] == e
  {
    if n > 0 && e in Chosen(all, chosen, n - 1) {
      ChosenMembers(all, chosen, n - 1, e);
    }
  }

  ghost predicate StaysLive<S>(live: seq<Entry<S>>, e: Entry<S>, nextId: nat, ops: seq<Op<S>>) {
    e in live && e.id !in Unsubscribed(ops, nextId)
  }

  /** The `i`-th entry visited is run: it is live at the start and not unsubscribed before its turn. */
  ghost predicate Runs<S>(all: seq<Entry<S>>, live: seq<Entry<S>>, nextId: nat,
                          between: nat -> seq<Op<S>>, during: nat -> seq<Op<S>>, i: nat)
  {
    i < |all| && StaysLive(live, all[i], nextId, RoundOps(between, during, i) + between(i))
  }

  /** The entries run in the first `n` turns of a loop that visits `all`. */
  ghost function Ran<S>(all: seq<Entry<S>>, live: seq<Entry<S>>, nextId: nat,
                        between: nat -> seq<Op<S>>, during: nat -> seq<Op<S>>, n: nat): seq<Entry<S>>
    requires n <= |all|
  {
    Chosen(all, (i: nat) => Runs(all, live, nextId, between, during, i), n)
  }

  lemma OneMoreRun<S>(all: seq<Entry<S>>, live: seq<Entry<S>>, nextId: nat,
                      between: nat -> seq<Op<S>>, during: nat -> seq<Op<S>>, n: nat)
    requires n < |all|
    ensures Ran(all, live, nextId, between, during, n + 1) == Ran(all, live, nextId, between, during, n)
      + if Runs(all, live, nextId, between, during, n) then [all[n]] else []
  {
  }

  lemma RanWasVisited<S>(all: seq<Entry<S>>, live: seq<Entry<S>>, nextId: nat,
                         between: nat -> seq<Op<S>>, during: nat -> seq<Op<S>>, n: nat, e: Entry<S>)
    requires n <= |all| && e in Ran(all, live, nextId, between, during, n)
    ensures e in all[..n] && e in live
  {
    ChosenMembers(all, (i: nat) => Runs(all, live, nextId, between, during, i), n, e);
    var i: nat :| i < n && Runs(all, live, nextId, between, during, i) && all[i] == e;
    assert all[..n][i] == e;
  }

  /** The loop has made `n` turns and is at the `k`-th entry. */
  ghost predicate Midway<S(!new)>(start: State<S>, between: nat -> seq<Op<S>>, during: nat -> seq<Op<S>>,
                                  expired: Entry<S> -> bool, n: nat, k: nat, s: State<S>, ran: seq<Entry<S>>)
  {
    var all := start.list + start.added;
    && Inv(start) && Inv(s) && s.pc == At(k)
    && n <= |all| && k <= |s.list| && s.list[k..] == all[n..]
    && Leads(Live(start), start.nextId, RoundOps(between, during, n), Expired(ran, expired), Live(s), s.nextId)
    && ran == Ran(all, Live(start), start.nextId, between, during, n)
  }

  lemma Begins<S(!new)>(start: State<S>, between: nat -> seq<Op<S>>, during: nat -> seq<Op<S>>,
                        expired: Entry<S> -> bool)
    requires Inv(start) && start.pc == Idle
    ensures Midway(start, between, during, expired, 0, 0, Apply(start, Begin), [])
  {
    ApplyKeepsInv(start, Begin);
    ApplyRefines(start, Begin);
    LeadsNowhere(Live(start), start.nextId);
    assert Expired<S>([], expired) == {};
  }

  /** An entry not yet visited is live exactly if it was at the start and has not been unsubscribed since. */
  lemma StillLive<S(!new)>(start: State<S>, between: nat -> seq<Op<S>>, during: nat -> seq<Op<S>>,
                           expired: Entry<S> -> bool, n: nat, k: nat, s: State<S>, ran: seq<Entry<S>>)
    requires Midway(start, between, during, expired, n, k, s, ran) && k < |s.list|
    ensures var e := s.list[k]; var ops := RoundOps(between, during, n);
      && n < |start.list + start.added| && e == (start.list + start.added)[n]
      && (e in Live(s) <==> e in Live(start) && e.id !in Unsubscribed(ops, start.nextId))
      && forall id :: id in Expired(ran, expired) ==> id < s.nextId
  {
    var all, ops := start.list + start.added, RoundOps(between, during, n);
    var e := s.list[k];
    assert s.list[k..][0] == e && all[n..][0] == all[n];
    assert e in all;
    ConnectedIds(ops, start.nextId);
    forall id | id in Expired(ran, expired) ensures id < e.id && id < s.nextId {
      var i :| 0 <= i < |ran| && ran[i].id == id;
      RanWasVisited(all, Live(start), start.nextId, between, during, n, ran[i]);
    }
    MinusMembers(Live(start) + Connected(ops, start.nextId),
                 Unsubscribed(ops, start.nextId) + Expired(ran, expired), e);
  }

  lemma TurnOn<S(!new)>(start: State<S>, between: nat -> seq<Op<S>>, during: nat -> seq<Op<S>>,
                        expired: Entry<S> -> bool, n: nat, k: nat, s: State<S>, ran: seq<Entry<S>>,
                        now: seq<Entry<S>>, at: nat, t: State<S>)
    requires Midway(start, between, during, expired, n, k, s, ran) && k < |s.list|
    requires TurnIs(s, k, between(n), during(n), expired, now, t) && t.pc == At(at)
    ensures Midway(start, between, during, expired, n + 1, at, t, ran + now)
  {
    var e, ops, n0 := s.list[k], RoundOps(between, during, n), start.nextId;
    StillLive(start, between, during, expired, n, k, s, ran);
    TurnLeads(s, k, between(n), during(n), expired, now, t);
    ConnectedAppend(ops, between(n), n0);
    LeadsOn(Live(start), n0, ops, Expired(ran, expired), Live(s), s.nextId,
            between(n) + during(n), Expired(now, expired), Live(t), t.nextId);
    ExpiredMore(ran, now, expired);
    OneMoreRun(start.list + start.added, Live(start), n0, between, during, n);
    NextEntry(s.list, k, at, t.list, start.list + start.added, n);
  }

  lemma NextEntry<S>(list: seq<Entry<S>>, k: nat, at: nat, later: seq<Entry<S>>, all: seq<Entry<S>>, n: nat)
    requires k < |list| && n < |all| && list[k..] == all[n..]
    requires (at == k + 1 && later == list) || (at == k && later == WithoutAt(list, k))
    ensures at <= |later| && later[at..] == all[n + 1..]
  {
    assert list[k..][1..] == list[k + 1..] && all[n..][1..] == all[n + 1..];
  }

  /** The rest of a notification: others act before and after the tombstones are swapped out. */
  ghost predicate ClearingIs<S>(s: State<S>, before: seq<Op<S>>, after: seq<Op<S>>, t: State<S>) {
    var m := Exec(s, StepsOf(before, s.nextId));
    t == Exec(m, [SwapOut] + StepsOf(after, m.nextId) + [Merge])
  }

  lemma ClearingLeads<S>(s: State<S>, before: seq<Op<S>>, after: seq<Op<S>>, t: State<S>)
    requires Inv(s) && s.pc == At(|s.list|) && ClearingIs(s, before, after, t)
    ensures Inv(t) && Leads(Live(s), s.nextId, before + after, {}, Live(t), t.nextId)
  {
    var m := Exec(s, StepsOf(before, s.nextId));
    OpsLead(s, before);
    ApplyKeepsInv(m, SwapOut);
    ApplyRefines(m, SwapOut);
    var c := Apply(m, SwapOut);
    OpsLead(c, after);
    var d := Exec(c, StepsOf(after, c.nextId));
    ApplyKeepsInv(d, Merge);
    ApplyRefines(d, Merge);
    ExecOne(m, SwapOut);
    ExecAppend(m, [SwapOut], StepsOf(after, m.nextId));
    ExecAppend(m, [SwapOut] + StepsOf(after, m.nextId), [Merge]);
    ExecOne(d, Merge);
    assert t == Apply(d, Merge);
    ThenLeads(s, before, m, after, {}, t);
  }

  /**
   * A notification from `start`: which entries it runs and who is live after it. `between(n)` and
   * `during(n)` are what others do before and after the check of the `n`-th entry.
   */
  ghost predicate Notified<S(!new)>(start: State<S>, between: nat -> seq<Op<S>>, during: nat -> seq<Op<S>>,
                                    expired: Entry<S> -> bool, before: seq<Op<S>>, after: seq<Op<S>>,
                                    ran: seq<Entry<S>>, t: State<S>)
  {
    var all := start.list + start.added;
    var ops := RoundOps(between, during, |all|) + (before + after);
    && ran == Ran(all, Live(start), start.nextId, between, during, |all|)
    && Live(t) == Minus(Live(start) + Connected(ops, start.nextId),
                        Unsubscribed(ops, start.nextId) + Expired(ran, expired))
    && t.nextId == start.nextId + |Connected(ops, start.nextId)|
  }

  lemma Finishes<S(!new)>(start: State<S>, between: nat -> seq<Op<S>>, during: nat -> seq<Op<S>>,
                          expired: Entry<S> -> bool, n: nat, s: State<S>, ran: seq<Entry<S>>,
                          before: seq<Op<S>>, after: seq<Op<S>>, t: State<S>)
    requires Midway(start, between, during, expired, n, |s.list|, s, ran) && ClearingIs(s, before, after, t)
    ensures Notified(start, between, during, expired, before, after, ran, t)
  {
    var all, none: set<nat> := start.list + start.added, {};
    assert |all[n..]| == 0;
    ClearingLeads(s, before, after, t);
    ConnectedIds(RoundOps(between, during, n), start.nextId);
    forall id | id in Expired(ran, expired) ensures id < s.nextId {
      var i :| 0 <= i < |ran| && ran[i].id == id;
      RanWasVisited(all, Live(start), start.nextId, between, during, n, ran[i]);
    }
    LeadsOn(Live(start), start.nextId, RoundOps(between, during, n), Expired(ran, expired), Live(s), s.nextId,
            before + after, none, Live(t), t.nextId);
    assert Expired(ran, expired) + none == Expired(ran, expired);
  }

  /**
   * So a slot that has run stays subscribed unless it says it has expired or is unsubscribed, and
   * otherwise does not; one connected meanwhile is live unless it is unsubscribed again.
   */
  lemma LiveAfter<S(!new)>(start: State<S>, between: nat -> seq<Op<S>>, during: nat -> seq<Op<S>>,
                           expired: Entry<S> -> bool, before: seq<Op<S>>, after: seq<Op<S>>,
                           ran: seq<Entry<S>>, t: State<S>, e: Entry<S>)
    requires Inv(start) && Notified(start, between, during, expired, before, after, ran, t)
    ensures var ops := RoundOps(between, during, |start.list + start.added|) + (before + after);
      var unsubscribed := e.id in Unsubscribed(ops, start.nextId);
      && (e in ran ==> (e in Live(t) <==> !unsubscribed && !expired(e)))
      && (e in Live(start) && e !in ran ==> (e in Live(t) <==> !unsubscribed))
      && (e in Connected(ops, start.nextId) ==> (e in Live(t) <==> !unsubscribed))
  {
    var all := start.list + start.added;
    var ops := RoundOps(between, during, |all|) + (before + after);
    forall f | f in ran ensures f in Live(start) {
      RanWasVisited(all, Live(start), start.nextId, between, during, |all|, f);
    }
    ConnectedIds(ops, start.nextId);
    LiveIsListed(start);
    MinusMembers(Live(start) + Connected(ops, start.nextId),
                 Unsubscribed(ops, start.nextId) + Expired(ran, expired), e);
    if e in Live(start) || e in Connected(ops, start.nextId) {
      ExpiredById(start, ran, expired, e);
    }
  }

  lemma LiveIsListed<S>(s: State<S>)
    requires Inv(s)
    ensures forall e :: e in Live(s) ==> e in s.list + s.added && e.id < s.nextId
    ensures forall e, f :: e in Live(s) && f in Live(s) && e.id == f.id ==> e == f
  {
    forall e | e in Live(s) ensures e in s.list + s.added {
      MinusMembers(s.list, s.removed + Pending(s), e);
    }
  }

  lemma ExpiredById<S(!new)>(s: State<S>, ran: seq<Entry<S>>, expired: Entry<S> -> bool, e: Entry<S>)
    requires Inv(s) && (forall f :: f in ran ==> f in Live(s)) && (e in Live(s) || e.id >= s.nextId)
    ensures e.id in Expired(ran, expired) <==> e in ran && expired(e)
  {
    LiveIsListed(s);
    if e.id in Expired(ran, expired) {
      var i :| 0 <= i < |ran| && expired(ran[i]) && ran[i].id == e.id;
      assert ran[i] in ran;
    }
  }
}
