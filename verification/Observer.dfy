/** `observers::base::impl`: the observer on its two linked lists, step by step and a round at a time. */
module Observer {
  import opened LinkedList
  import opened ObserverModel
  import opened Notification

  /** No node but those of `b` is in `a`. */
  ghost predicate Within<T>(a: seq<Node<T>>, b: seq<Node<T>>) {
    (forall i :: 0 <= i < |a| ==> a[i] in b) && (forall n :: n in a ==> n in b)
  }

  /** Delete the entry with this id, looked for from whichever end is nearer. */
  method RemoveByIndex<S>(lst: List<Entry<S>>, id: nat)
    requires lst.Valid() && Ascending(lst.contents)
    modifies lst, lst.nodes`prev, lst.nodes`next
    ensures lst.Valid() && lst.contents == Minus(old(lst.contents), {id})
    ensures Within(lst.nodes, old(lst.nodes))
  {
    ghost var c := lst.contents;
    if lst.size > 0 {
      var minId, maxId := lst.front.data.id, lst.back.data.id;
      if id < minId || id > maxId {
        MinusNothing(c, {id});
      } else if id - minId < maxId - id {
        RemoveFromFront(lst, id);
      } else {
        RemoveFromBack(lst, id);
      }
    }
  }

  method RemoveFromFront<S>(lst: List<Entry<S>>, id: nat)
    requires lst.Valid() && Ascending(lst.contents)
    modifies lst, lst.nodes`prev, lst.nodes`next
    ensures lst.Valid() && lst.contents == Minus(old(lst.contents), {id})
    ensures Within(lst.nodes, old(lst.nodes))
  {
    ghost var c := lst.contents;
    var b := lst.front;
    ghost var k := 0;
    while b != null && b.data.id < id
      invariant 0 <= k <= |c| && b == NodeAt(lst.nodes, k)
      invariant forall i :: 0 <= i < k ==> c[i].id < id
      decreases |c| - k
    {
      b := b.next;
      k := k + 1;
    }
    if b != null && b.data.id == id {
      MinusOne(c, k);
      var _ := lst.Erase(b, k);
    } else {
      MinusNothing(c, {id});
    }
  }

  method RemoveFromBack<S>(lst: List<Entry<S>>, id: nat)
    requires lst.Valid() && Ascending(lst.contents)
    modifies lst, lst.nodes`prev, lst.nodes`next
    ensures lst.Valid() && lst.contents == Minus(old(lst.contents), {id})
    ensures Within(lst.nodes, old(lst.nodes))
  {
    ghost var c := lst.contents;
    var b := lst.back;
    ghost var k := |lst.nodes| - 1;
    while b != null && id < b.data.id
      invariant -1 <= k < |c| && b == NodeAt(lst.nodes, k)
      invariant forall i :: k < i < |c| ==> id < c[i].id
      decreases k
    {
      b := b.prev;
      k := k - 1;
    }
    if b != null && b.data.id == id {
      MinusOne(c, k);
      var _ := lst.Rerase(b, k);
    } else {
      MinusNothing(c, {id});
    }
  }

  predicate LowerBound(m: nat, b: set<nat>) {
    forall x :: x in b ==> m <= x
  }

  lemma SmallestExists(b: set<nat>) returns (m: nat)
    requires b != {}
    ensures m in b && LowerBound(m, b)
  {
    var a :| a in b;
    m := a;
    if b != {a} {
      var n := SmallestExists(b - {a});
      if n < a {
        m := n;
      }
      forall x | x in b ensures m <= x {
        assert x == a || x in b - {a};
      }
    }
  }

  /** The entry `m` of the merge is met at `k`, or is not there. */
  lemma MergeOne<S>(c: seq<Entry<S>>, b: set<nat>, m: nat, k: nat)
    requires Ascending(c) && m in b && k <= |c|
    requires forall i :: 0 <= i < k ==> c[i].id < m
    requires k < |c| ==> c[k].id >= m
    ensures Minus(if k < |c| && c[k].id == m then WithoutAt(c, k) else c, b - {m}) == Minus(c, b)
  {
    assert {m} + (b - {m}) == b;
    MinusMinus(c, {m}, b - {m});
    if k < |c| && c[k].id == m {
      MinusOne(c, k);
    } else {
      MinusNothing(c, {m});
    }
  }

  /** One pass along both orders: the sorted ids and the list. */
  method MergeRemoved<S>(lst: List<Entry<S>>, removed: set<nat>)
    requires lst.Valid() && Ascending(lst.contents)
    modifies lst, lst.nodes`prev, lst.nodes`next
    ensures lst.Valid() && lst.contents == Minus(old(lst.contents), removed)
    ensures Within(lst.nodes, old(lst.nodes))
  {
    ghost var was, all := lst.nodes, lst.contents;
    var b := removed;
    var bl := lst.front;
    ghost var k: nat := 0;
    while b != {} && bl != null
      invariant lst.Valid() && Ascending(lst.contents)
      invariant Within(lst.nodes, was)
      invariant k <= |lst.nodes| && bl == NodeAt(lst.nodes, k) && Below(lst.contents, k, b)
      invariant Minus(lst.contents, b) == Minus(all, removed)
      decreases b
    {
      bl, k, b := MergeLeast(lst, bl, k, b);
    }
    BelowAll(lst.contents, k, b);
  }

  /** One turn of the merge: the smallest id left is dealt with. */
  method MergeLeast<S>(lst: List<Entry<S>>, from: Node?<Entry<S>>, ghost at: nat, b: set<nat>)
    returns (bl: Node?<Entry<S>>, ghost k: nat, left: set<nat>)
    requires lst.Valid() && Ascending(lst.contents) && b != {}
    requires at <= |lst.nodes| && from == NodeAt(lst.nodes, at) && Below(lst.contents, at, b)
    modifies lst, lst.nodes`prev, lst.nodes`next
    ensures lst.Valid() && Ascending(lst.contents)
    ensures Within(lst.nodes, old(lst.nodes))
    ensures k <= |lst.nodes| && bl == NodeAt(lst.nodes, k) && Below(lst.contents, k, left)
    ensures left < b && Minus(lst.contents, left) == Minus(old(lst.contents), b)
  {
    ghost var least := SmallestExists(b);
    var m :| m in b && LowerBound(m, b);
    bl, k := MergeId(lst, from, at, m, b);
    left := b - {m};
  }

  /** The first `k` ids come before all of `b`. */
  ghost predicate Below<S>(c: seq<Entry<S>>, k: nat, b: set<nat>) {
    k <= |c| && forall i :: 0 <= i < k ==> forall x :: x in b ==> c[i].id < x
  }

  lemma BelowAll<S>(c: seq<Entry<S>>, k: nat, b: set<nat>)
    requires Below(c, k, b) && (b == {} || k == |c|)
    ensures Minus(c, b) == c
  {
    MinusNothing(c, b);
  }

  /** The inner loop for one id, and the erasure if the list has it. */
  method MergeId<S>(lst: List<Entry<S>>, from: Node?<Entry<S>>, ghost at: nat, m: nat, ghost b: set<nat>)
    returns (bl: Node?<Entry<S>>, ghost k: nat)
    requires lst.Valid() && Ascending(lst.contents) && m in b && LowerBound(m, b)
    requires at <= |lst.nodes| && from == NodeAt(lst.nodes, at) && Below(lst.contents, at, b)
    modifies lst, lst.nodes`prev, lst.nodes`next
    ensures lst.Valid() && Ascending(lst.contents)
    ensures Within(lst.nodes, old(lst.nodes))
    ensures k <= |lst.nodes| && bl == NodeAt(lst.nodes, k) && Below(lst.contents, k, b - {m})
    ensures Minus(lst.contents, b - {m}) == Minus(old(lst.contents), b)
  {
    bl, k := Advance(lst, from, at, m);
    MergeOne(lst.contents, b, m, k);
    if bl != null && bl.data.id == m {
      ghost var c := lst.contents;
      WithoutAtAscending(c, k);
      bl := lst.Erase(bl, k);
      assert lst.contents == WithoutAt(c, k);
    }
  }

  lemma WithoutAtAscending<S>(c: seq<Entry<S>>, k: nat)
    requires Ascending(c) && k < |c|
    ensures Ascending(WithoutAt(c, k)) && forall i :: 0 <= i < k ==> WithoutAt(c, k)[i] == c[i]
  {
  }

  /** Move on to the first entry not below `m`. */
  method Advance<S>(lst: List<Entry<S>>, from: Node?<Entry<S>>, ghost at: nat, m: nat)
    returns (bl: Node?<Entry<S>>, ghost k: nat)
    requires lst.Valid() && at <= |lst.nodes| && from == NodeAt(lst.nodes, at)
    requires forall i :: 0 <= i < at ==> lst.contents[i].id < m
    ensures at <= k <= |lst.nodes| && bl == NodeAt(lst.nodes, k)
    ensures forall i :: 0 <= i < k ==> lst.contents[i].id < m
    ensures bl != null ==> bl.data.id >= m
  {
    bl, k := from, at;
    while bl != null && bl.data.id < m
      invariant at <= k <= |lst.nodes| && bl == NodeAt(lst.nodes, k)
      invariant forall i :: 0 <= i < k ==> lst.contents[i].id < m
      decreases |lst.nodes| - k
    {
      bl := bl.next;
      k := k + 1;
    }
  }

  /** Ids ascend through both lists and are below the next one. */
  ghost predicate Ordered<S>(list: seq<Entry<S>>, added: seq<Entry<S>>, nextId: nat) {
    Ascending(list + added) && forall e :: e in list + added ==> e.id < nextId
  }

  lemma EachInOrder<S>(list: seq<Entry<S>>, added: seq<Entry<S>>)
    requires Ascending(list + added)
    ensures Ascending(list) && Ascending(added)
  {
    Halves(list, added);
  }

  lemma FilterAddedKeepsOrder<S>(list: seq<Entry<S>>, added: seq<Entry<S>>, y: set<nat>, nextId: nat)
    requires Ordered(list, added, nextId)
    ensures Ordered(list, Minus(added, y), nextId)
  {
    FilteredAscending(list, added, {}, y);
    MinusNothing(list, {});
  }

  lemma FilterListKeepsOrder<S>(list: seq<Entry<S>>, added: seq<Entry<S>>, x: set<nat>, nextId: nat)
    requires Ordered(list, added, nextId)
    ensures Ordered(Minus(list, x), added, nextId)
  {
    FilteredAscending(list, added, x, {});
    MinusNothing(added, {});
  }

  lemma ShorterKeepsOrder<S>(list: seq<Entry<S>>, added: seq<Entry<S>>, k: nat, nextId: nat)
    requires Ordered(list, added, nextId) && k < |list|
    ensures Ordered(WithoutAt(list, k), added, nextId)
  {
    ShorterAscending(list, added, k);
  }

  lemma StillApart<T>(left: seq<Node<T>>, was: seq<Node<T>>, others: seq<Node<T>>, repr: set<Node<T>>)
    requires Apart(was, others) && forall i :: 0 <= i < |left| ==> left[i] in was
    requires forall i :: 0 <= i < |was| ==> was[i] in repr
    ensures Apart(left, others) && forall i :: 0 <= i < |left| ==> left[i] in repr
  {
  }

  lemma StepKeepsAll<S>(s: State<S>, step: Step<S>)
    ensures Inv(s) && RoundInv(s) ==> Inv(Apply(s, step)) && RoundInv(Apply(s, step))
  {
    if Inv(s) && RoundInv(s) {
      ApplyKeepsInv(s, step);
      ApplyKeepsRound(s, step);
    }
  }

  lemma TombstoneKeeps<S>(s: State<S>, id: nat)
    requires Ordered(s.list, s.added, s.nextId)
    ensures Ascending(s.added)
    ensures var next := Tombstone(s, id);
      && Ordered(next.list, next.added, next.nextId)
      && (id < s.nextId ==> next == Apply(s, Step.Unsubscribe(id)))
      && (id < s.nextId && Inv(s) && RoundInv(s) ==> Inv(next) && RoundInv(next))
  {
    StepKeepsAll(s, Step.Unsubscribe(id));
    EachInOrder(s.list, s.added);
    FilterAddedKeepsOrder(s.list, s.added, {id}, s.nextId);
  }

  lemma BeginShape<S>(s: State<S>, next: State<S>)
    requires Ordered(s.list, s.added, s.nextId) && s.pc == Idle && next == Apply(s, Begin)
    ensures next == State(s.list + s.added, [], s.removed, s.nextId, At(0), next.round)
    ensures Ordered(next.list, next.added, next.nextId)
  {
    assert s.list + s.added + [] == s.list + s.added;
  }

  class Impl<S(!new)> {
    const list: List<Entry<S>>
    const added: List<Entry<S>>
    var removed: set<nat>
    var nextId: nat
    /** Where a round is, and what it has done. */
    ghost var pc: Pc
    ghost var round: Round<S>
    /** Every node that is or has been in either list. */
    ghost var repr: set<Node<Entry<S>>>

    ghost function Abs(): State<S>
      reads this, list, added
    {
      State(list.contents, added.contents, removed, nextId, pc, round)
    }

    /** The lists are sound and share no node. */
    ghost predicate Linked()
      reads this, list, list.nodes, added, added.nodes
    {
      && list != added && list.Valid() && added.Valid()
      && Apart(list.nodes, added.nodes)
      && (forall i :: 0 <= i < |list.nodes| ==> list.nodes[i] in repr)
      && (forall i :: 0 <= i < |added.nodes| ==> added.nodes[i] in repr)
    }

    /** The lists are sound and in order. */
    ghost predicate Valid()
      reads this, list, list.nodes, added, added.nodes
    {
      Linked() && Ordered(list.contents, added.contents, nextId)
    }

    /** So is the model's state, tombstones and the account of the round included. */
    ghost predicate Consistent()
      reads this, list, list.nodes, added, added.nodes
    {
      Valid() && Inv(Abs()) && RoundInv(Abs())
    }

    lemma Sound(s: State<S>)
      requires Linked() && Abs() == s && Ordered(s.list, s.added, s.nextId)
      ensures Valid() && (Inv(s) && RoundInv(s) ==> Consistent())
    {
    }

    constructor ()
      ensures Consistent() && Abs() == Init<S>() && fresh(list) && fresh(added)
      ensures repr == {}
    {
      list := new List<Entry<S>>();
      added := new List<Entry<S>>();
      removed, nextId, pc, round, repr := {}, 1, Idle, Round([], [], {}, {}), {};
      new;
      InitKeepsAll<S>();
    }

    method Connect(slot: S) returns (id: nat)
      requires Valid()
      modifies this`nextId, this`repr, added, repr
      ensures Valid() && id == old(nextId) && Abs() == Apply(old(Abs()), Step.Connect(slot))
      ensures (forall n :: n in repr ==> n in old(repr) || fresh(n))
      ensures old(Consistent()) ==> Consistent()
    {
      ghost var next := Apply(Abs(), Step.Connect(slot));
      StepKeepsAll(Abs(), Step.Connect(slot));
      ConnectKeepsOrder(list.contents, added.contents, Entry(slot, nextId));
      id := PutAdded(slot);
      Sound(next);
    }

    method PutAdded(slot: S) returns (id: nat)
      requires Linked()
      modifies this`nextId, this`repr, added, repr
      ensures Linked() && id == old(nextId) && Abs() == Apply(old(Abs()), Step.Connect(slot))
      ensures (forall n :: n in repr ==> n in old(repr) || fresh(n))
    {
      id := nextId;
      nextId := nextId + 1;
      ghost var n := added.PushBack(Entry(slot, id));
      repr := repr + {n};
    }

    method Unsubscribe(id: nat)
      requires Valid()
      modifies this`removed, this`round, added, repr
      ensures Valid() && Abs() == Tombstone(old(Abs()), id)
      ensures id < nextId ==> Abs() == Apply(old(Abs()), Step.Unsubscribe(id))
      ensures old(Consistent()) && id < nextId ==> Consistent()
    {
      ghost var next := Tombstone(Abs(), id);
      TombstoneKeeps(Abs(), id);
      PutTombstone(id);
      Sound(next);
    }

    method PutTombstone(id: nat)
      requires Linked() && Ascending(added.contents)
      modifies this`removed, this`round, added, repr
      ensures Linked() && Abs() == Tombstone(old(Abs()), id)
    {
      removed := removed + {id};
      round := round.(gone := round.gone + {id});
      RemoveAdded(id);
    }

    method RemoveAdded(id: nat)
      requires Linked() && Ascending(added.contents)
      modifies added, repr
      ensures Linked()
      ensures added.contents == Minus(old(added.contents), {id})
    {
      ghost var was := added.nodes;
      RemoveByIndex(added, id);
      StillApart(added.nodes, was, list.nodes, repr);
    }

    /** `splice_added`, and the round's iterator put at the front. */
    method BeginRound() returns (b: Node?<Entry<S>>)
      requires Valid() && pc == Idle
      modifies this`pc, this`round, list, added, repr
      ensures Valid() && Abs() == Apply(old(Abs()), Begin) && b == NodeAt(list.nodes, 0)
    {
      ghost var next := Apply(Abs(), Begin);
      BeginShape(Abs(), next);
      b := SpliceAdded(next);
      Sound(next);
    }

    /** The added entries join the others, and the round is where it starts. */
    method SpliceAdded(ghost next: State<S>) returns (b: Node?<Entry<S>>)
      requires Linked()
      requires next == State(list.contents + added.contents, [], removed, nextId, At(0), next.round)
      modifies this`pc, this`round, list, added, repr
      ensures Linked() && Abs() == next && b == NodeAt(list.nodes, 0)
    {
      round, pc := next.round, next.pc;
      list.SpliceBack(added);
      b := list.front;
    }

    /** The entry's id is taken out of the tombstones if it is there. */
    method IsRemoved(b: Node<Entry<S>>, ghost k: nat) returns (found: bool)
      requires Valid() && pc == At(k) && k < |list.nodes| && b == list.nodes[k]
      modifies this`removed, this`pc, this`round
      ensures Valid() && Abs() == Apply(old(Abs()), Check)
      ensures pc == if found then Erasing(k) else Running(k)
      ensures found == (b.data.id in old(removed)) && removed == old(removed) - {b.data.id}
      ensures round.ran == if found then old(round).ran else old(round).ran + [b.data]
      ensures round.start == old(round.start)
    {
      found := b.data.id in removed;
      if found {
        removed := removed - {b.data.id};
        pc := Erasing(k);
        round := round.(missed := round.missed + {b.data.id});
      } else {
        pc := Running(k);
        round := round.(ran := round.ran + [b.data]);
      }
    }

    /** The entry the round stands at is erased, having been found removed or having expired. */
    method EraseEntry(b: Node<Entry<S>>, ghost k: nat, ghost step: Step<S>) returns (after: Node?<Entry<S>>)
      requires Valid() && k < |list.nodes| && b == list.nodes[k]
      requires (step == Erase && pc == Erasing(k)) || (step == Done(true) && pc == Running(k))
      modifies this`pc, this`round, list, repr
      ensures Valid() && Abs() == Apply(old(Abs()), step) && after == NodeAt(list.nodes, k) && pc == At(k)
      ensures |list.nodes| == |old(list.nodes)| - 1
      ensures round.ran == old(round.ran) && round.start == old(round.start)
    {
      ShorterKeepsOrder(list.contents, added.contents, k, nextId);
      if step == Done(true) {
        round := round.(gone := round.gone + {b.data.id});
      }
      pc := At(k);
      after := EraseFromList(b, k);
    }

    method EraseFromList(b: Node<Entry<S>>, ghost k: nat) returns (after: Node?<Entry<S>>)
      requires Linked() && k < |list.nodes| && b == list.nodes[k]
      modifies list, repr
      ensures Linked() && after == NodeAt(list.nodes, k) && list.contents == WithoutAt(old(list.contents), k)
      ensures |list.nodes| == |old(list.nodes)| - 1
    {
      ghost var was := list.nodes;
      after := list.Erase(b, k);
      StillApart(list.nodes, was, added.nodes, repr);
    }

    /** A slot that has run and not expired is passed over. */
    method PassEntry(b: Node<Entry<S>>, ghost k: nat) returns (after: Node?<Entry<S>>)
      requires Valid() && pc == Running(k) && k < |list.nodes| && b == list.nodes[k]
      modifies this`pc
      ensures Valid() && Abs() == Apply(old(Abs()), Done(false))
      ensures after == NodeAt(list.nodes, k + 1) && pc == At(k + 1)
    {
      pc := At(k + 1);
      after := b.next;
    }

    method SwapRemoved() returns (tmp: set<nat>)
      requires Valid() && pc == At(|list.nodes|)
      modifies this`pc, this`removed
      ensures Valid() && Abs() == Apply(old(Abs()), SwapOut) && pc == Merging(tmp)
      ensures tmp == old(removed) && removed == {}
    {
      tmp := removed;
      removed := {};
      pc := Merging(tmp);
    }

    method ClearRemoved(tmp: set<nat>)
      requires Valid() && pc == Merging(tmp)
      modifies this`pc, list, repr
      ensures Valid() && Abs() == Apply(old(Abs()), Merge) && pc == Idle
      ensures round == old(round)
    {
      EachInOrder(list.contents, added.contents);
      FilterListKeepsOrder(list.contents, added.contents, tmp, nextId);
      pc := Idle;
      MergeList(tmp);
    }

    method MergeList(tmp: set<nat>)
      requires Linked() && Ascending(list.contents)
      modifies list, repr
      ensures Linked()
      ensures list.contents == Minus(old(list.contents), tmp)
    {
      ghost var was := list.nodes;
      MergeRemoved(list, tmp);
      StillApart(list.nodes, was, added.nodes, repr);
    }

    /** What other threads and callbacks do between two steps of a round: connect and unsubscribe. */
    method Interfere(ops: seq<Op<S>>) returns (ghost steps: seq<Step<S>>)
      requires Valid()
      modifies this`removed, this`nextId, this`round, this`repr, added, repr
      ensures Valid() && Abs() == Exec(old(Abs()), steps) && (forall n :: n in repr ==> n in old(repr) || fresh(n))
      ensures round.ran == old(round.ran) && round.start == old(round.start)
      ensures steps == StepsOf(ops, old(nextId)) && nextId == After(ops, old(nextId))
    {
      ghost var start := Abs();
      steps := [];
      for i := 0 to |ops|
        invariant Valid() && Abs() == Exec(start, steps) && (forall n :: n in repr ==> n in old(repr) || fresh(n))
        invariant round.ran == old(round.ran) && round.start == old(round.start)
        invariant steps == StepsOf(ops[..i], start.nextId) && nextId == After(ops[..i], start.nextId)
      {
        steps := ActNext(start, ops[..i], ops[i], steps);
        assert ops[..i] + [ops[i]] == ops[..i + 1];
      }
      assert ops[..|ops|] == ops;
    }

    /** One more action after those in `done`. */
    method ActNext(ghost start: State<S>, ghost done: seq<Op<S>>, op: Op<S>, ghost before: seq<Step<S>>)
      returns (ghost steps: seq<Step<S>>)
      requires Valid() && Abs() == Exec(start, before)
      requires before == StepsOf(done, start.nextId) && nextId == After(done, start.nextId)
      modifies this`removed, this`nextId, this`round, this`repr, added, repr
      ensures Valid() && Abs() == Exec(start, steps) && (forall n :: n in repr ==> n in old(repr) || fresh(n))
      ensures round.ran == old(round.ran) && round.start == old(round.start)
      ensures steps == StepsOf(done + [op], start.nextId) && nextId == After(done + [op], start.nextId)
    {
      ghost var n := nextId;
      var step := Act(op);
      steps := before + step;
      ExecAppend(start, before, step);
      OneMoreOp(done, op, start.nextId, before, n, step, nextId);
    }

    /** One such action; an id never given out cannot be unsubscribed. */
    method Act(op: Op<S>) returns (ghost steps: seq<Step<S>>)
      requires Valid()
      modifies this`removed, this`nextId, this`round, this`repr, added, repr
      ensures Valid() && Abs() == Exec(old(Abs()), steps) && (forall n :: n in repr ==> n in old(repr) || fresh(n))
      ensures round.ran == old(round.ran) && round.start == old(round.start)
      ensures steps == StepsOf([op], old(nextId)) && nextId == After([op], old(nextId))
    {
      steps := [];
      OneOp(op, nextId);
      match op
      case ToConnect(slot) =>
        steps := [Step.Connect(slot)];
        ExecOne(Abs(), Step.Connect(slot));
        var _ := Connect(slot);
      case ToUnsubscribe(id) =>
        if id < nextId {
          steps := [Step.Unsubscribe(id)];
          ExecOne(Abs(), Step.Unsubscribe(id));
          Unsubscribe(id);
        }
    }

    /**
     * One turn of the round's loop at the `k`-th entry: the check, others acting, then the entry
     * erased, or run and then erased if it has expired.
     */
    method Turn(b: Node<Entry<S>>, ghost k: nat, during: seq<Op<S>>, expired: Entry<S> -> bool)
      returns (after: Node?<Entry<S>>, ghost at: nat, ran: seq<Entry<S>>, ghost steps: seq<Step<S>>)
      requires Valid() && pc == At(k) && k < |list.nodes| && b == list.nodes[k]
      modifies this, list, added, repr
      ensures Valid() && Abs() == Exec(old(Abs()), steps) && (forall n :: n in repr ==> n in old(repr) || fresh(n))
      ensures pc == At(at) && at <= |list.nodes| && after == NodeAt(list.nodes, at)
      ensures |list.nodes| - at < |old(list.nodes)| - k
      ensures round.ran == old(round.ran) + ran && round.start == old(round.start)
      ensures ran == if b.data.id in old(removed) then [] else [b.data]
      ensures steps == [Check] + StepsOf(during, old(nextId))
        + [if b.data.id in old(removed) then Erase else Done(expired(b.data))]
    {
      var found := IsRemoved(b, k);
      ghost var s1 := Abs();
      ran := if found then [] else [b.data];
      ghost var first := Interfere(during);
      ghost var s2 := Abs();
      ghost var step;
      after, at, step := LeaveEntry(b, k, found, expired(b.data));
      steps := [Check] + first + [step];
      Composed(old(Abs()), s1, first, s2, step);
    }

    /** A turn, others acting before it. */
    method DisturbedTurn(b: Node<Entry<S>>, ghost k: nat, before: seq<Op<S>>, during: seq<Op<S>>,
                         expired: Entry<S> -> bool)
      returns (after: Node?<Entry<S>>, ghost at: nat, ran: seq<Entry<S>>, ghost steps: seq<Step<S>>)
      requires Valid() && pc == At(k) && k < |list.nodes| && b == list.nodes[k]
      modifies this, list, added, repr
      ensures Valid() && Abs() == Exec(old(Abs()), steps) && (forall n :: n in repr ==> n in old(repr) || fresh(n))
      ensures pc == At(at) && at <= |list.nodes| && after == NodeAt(list.nodes, at)
      ensures |list.nodes| - at < |old(list.nodes)| - k
      ensures round.ran == old(round.ran) + ran && round.start == old(round.start)
      ensures TurnIs(old(Abs()), k, before, during, expired, ran, Abs())
    {
      ghost var more := Interfere(before);
      ghost var turn;
      after, at, ran, turn := Turn(b, k, during, expired);
      steps := more + turn;
      ExecAppend(old(Abs()), more, turn);
    }

    /** A turn of the loop that has visited `i` entries since `start`. */
    method LoopTurn(ghost start: State<S>, b: Node<Entry<S>>, ghost k: nat, i: nat,
                    between: nat -> seq<Op<S>>, during: nat -> seq<Op<S>>, expired: Entry<S> -> bool,
                    ghost before: seq<Entry<S>>)
      returns (after: Node?<Entry<S>>, ghost at: nat, ran: seq<Entry<S>>, ghost steps: seq<Step<S>>)
      requires Valid() && pc == At(k) && k < |list.nodes| && b == list.nodes[k]
      requires Midway(start, between, during, expired, i, k, Abs(), before)
      modifies this, list, added, repr
      ensures Valid() && Abs() == Exec(old(Abs()), steps) && (forall n :: n in repr ==> n in old(repr) || fresh(n))
      ensures pc == At(at) && at <= |list.nodes| && after == NodeAt(list.nodes, at)
      ensures |list.nodes| - at < |old(list.nodes)| - k
      ensures round.ran == old(round.ran) + ran && round.start == old(round.start)
      ensures Midway(start, between, during, expired, i + 1, at, Abs(), before + ran)
    {
      ghost var was := Abs();
      after, at, ran, steps := DisturbedTurn(b, k, between(i), during(i), expired);
      TurnOn(start, between, during, expired, i, k, was, before, ran, at, Abs());
    }

    /** What ends a turn: erasing the entry, or passing over it. */
    method LeaveEntry(b: Node<Entry<S>>, ghost k: nat, found: bool, expired: bool)
      returns (after: Node?<Entry<S>>, ghost at: nat, ghost step: Step<S>)
      requires Valid() && k < |list.nodes| && b == list.nodes[k]
      requires pc == if found then Erasing(k) else Running(k)
      modifies this`pc, this`round, list, repr
      ensures Valid() && Abs() == Apply(old(Abs()), step)
      ensures step == if found then Erase else Done(expired)
      ensures pc == At(at) && at <= |list.nodes| && after == NodeAt(list.nodes, at)
      ensures |list.nodes| - at < |old(list.nodes)| - k
      ensures round.ran == old(round.ran) && round.start == old(round.start)
      ensures after == if found || expired then NodeAt(list.nodes, k) else NodeAt(list.nodes, k + 1)
      ensures list.contents == if found || expired then WithoutAt(old(list.contents), k) else old(list.contents)
    {
      step := if found then Erase else Done(expired);
      if found || expired {
        at := k;
        after := EraseEntry(b, k, step);
      } else {
        at := k + 1;
        after := PassEntry(b, k);
      }
    }

    /** The loop is at its first entry and has run nothing. */
    method BeginLoop(ghost between: nat -> seq<Op<S>>, ghost during: nat -> seq<Op<S>>,
                     ghost expired: Entry<S> -> bool)
      returns (b: Node?<Entry<S>>)
      requires Valid() && Inv(Abs()) && pc == Idle
      modifies this`pc, this`round, list, added, repr
      ensures Valid() && Abs() == Apply(old(Abs()), Begin) && b == NodeAt(list.nodes, 0) && pc == At(0)
      ensures round.ran == [] && round.start == Live(old(Abs()))
      ensures Midway(old(Abs()), between, during, expired, 0, 0, Abs(), [])
    {
      assert removed + {} == removed;
      Begins(Abs(), between, during, expired);
      b := BeginRound();
    }

    /** The round's loop, others acting between its turns. */
    method RunAll(during: nat -> seq<Op<S>>, between: nat -> seq<Op<S>>, expired: Entry<S> -> bool)
      returns (ran: seq<Entry<S>>, ghost n: nat, ghost steps: seq<Step<S>>)
      requires Valid() && Inv(Abs()) && pc == Idle
      modifies this, list, added, repr
      ensures Valid() && Abs() == Exec(old(Abs()), steps) && (forall n :: n in repr ==> n in old(repr) || fresh(n))
      ensures pc == At(|list.nodes|)
      ensures ran == round.ran && round.start == Live(old(Abs()))
      ensures Midway(old(Abs()), between, during, expired, n, |list.nodes|, Abs(), ran)
    {
      ghost var start := Abs();
      var b := BeginLoop(between, during, expired);
      ExecOne(start, Begin);
      ghost var k: nat := 0;
      var i := 0;
      ran := [];
      steps := [Begin];
      while b != null
        invariant Valid() && Abs() == Exec(start, steps) && (forall n :: n in repr ==> n in old(repr) || fresh(n))
        invariant pc == At(k) && k <= |list.nodes| && b == NodeAt(list.nodes, k)
        invariant ran == round.ran && round.start == Live(start)
        invariant Midway(start, between, during, expired, i, k, Abs(), ran)
        decreases |list.nodes| - k
      {
        var next, at, now, turn := LoopTurn(start, b, k, i, between, during, expired, ran);
        ExecAppend(start, steps, turn);
        b, k, ran, steps := next, at, ran + now, steps + turn;
        i := i + 1;
      }
      n := i;
    }

    /**
     * A notification: new subscriptions spliced in, every entry visited, the tombstones merged
     * away, with other threads and callbacks acting at every point in between. `expired` is what
     * each slot answers when it has run.
     */
    method Notify(during: nat -> seq<Op<S>>, between: nat -> seq<Op<S>>, expired: Entry<S> -> bool,
                  before: seq<Op<S>>, after: seq<Op<S>>)
      returns (ran: seq<Entry<S>>, ghost steps: seq<Step<S>>)
      requires Consistent() && pc == Idle
      modifies this, list, added, repr
      ensures Consistent() && pc == Idle
      ensures Abs() == Exec(old(Abs()), steps) && (forall n :: n in repr ==> n in old(repr) || fresh(n))
      ensures round.start == Live(old(Abs())) && ran == Minus(round.start, round.missed) && Ascending(ran)
      ensures forall e :: e in round.start && e.id in round.missed ==> e.id in round.gone
      ensures forall e :: e in round.start && e.id !in round.gone ==> e in ran
      ensures Notified(old(Abs()), between, during, expired, before, after, ran, Abs())
    {
      ghost var start := Abs();
      ghost var n;
      ran, n, steps := RunAll(during, between, expired);
      ghost var s := Abs();
      ghost var more := Interfere(before);
      ExecAppend(start, steps, more);
      steps := steps + more;
      more := ClearTombstones(after);
      ExecAppend(start, steps, more);
      steps := steps + more;
      Finishes(start, between, during, expired, n, s, ran, before, after, Abs());
      ExecKeepsAll(start, steps);
      RoundResult(start, steps);
    }

    /** `clear_removed`: the tombstones are swapped out at once and merged away afterwards. */
    method ClearTombstones(ops: seq<Op<S>>) returns (ghost steps: seq<Step<S>>)
      requires Valid() && pc == At(|list.nodes|)
      modifies this, list, added, repr
      ensures Valid() && Abs() == Exec(old(Abs()), steps) && (forall n :: n in repr ==> n in old(repr) || fresh(n))
      ensures pc == Idle
      ensures round.ran == old(round.ran) && round.start == old(round.start)
      ensures steps == [SwapOut] + StepsOf(ops, old(nextId)) + [Merge]
    {
      ghost var start := Abs();
      var tmp := SwapRemoved();
      ExecOne(start, SwapOut);
      ghost var more := Interfere(ops);
      ExecAppend(start, [SwapOut], more);
      steps := [SwapOut] + more;
      ExecOne(Abs(), Merge);
      ExecAppend(start, steps, [Merge]);
      ClearRemoved(tmp);
      steps := steps + [Merge];
    }
  }

  lemma Composed<S>(s: State<S>, s1: State<S>, first: seq<Step<S>>, s2: State<S>, step: Step<S>)
    requires s1 == Apply(s, Check) && s2 == Exec(s1, first)
    ensures Exec(s, [Check] + first + [step]) == Apply(s2, step)
  {
    ExecAppend(s, [Check] + first, [step]);
    ExecAppend(s, [Check], first);
    ExecOne(s, Check);
    ExecOne(s2, step);
  }
}
