/**
 * The steps of `observers::base`: connects and unsubscribes, which any thread or callback may
 * make at any moment, and the steps of a notification round, one round at a time. Each step is
 * one critical section of `tmp_lock_` or one action of the round on its own list.
 */
module ObserverModel {

  datatype Entry<S> = Entry(slot: S, id: nat)

  /** Where the round is: at an entry, about to erase it, running it, or merging the swapped-out ids. */
  datatype Pc = Idle | At(k: nat) | Erasing(k: nat) | Running(k: nat) | Merging(dead: set<nat>)

  /**
   * History of the current or last round: the subscriptions live when it began, those it ran,
   * the ids it found removed, and the ids unsubscribed or expired since it began.
   */
  datatype Round<S> = Round(start: seq<Entry<S>>, ran: seq<Entry<S>>, missed: set<nat>, gone: set<nat>)

  datatype State<S> = State(
    list: seq<Entry<S>>, added: seq<Entry<S>>, removed: set<nat>, nextId: nat,
    pc: Pc, round: Round<S>)

  datatype Step<S> =
    | Connect(slot: S)
    | Unsubscribe(id: nat)
    | Begin
    | Check
    | Erase
    | Done(expired: bool)
    | SwapOut
    | Merge

  /** The entries whose ids are not in `dead`, in order. */
  function Minus<S>(s: seq<Entry<S>>, dead: set<nat>): seq<Entry<S>> {
    if s == [] then []
    else (if s[0].id in dead then [] else [s[0]]) + Minus(s[1..], dead)
  }

  function WithoutAt<S>(s: seq<Entry<S>>, k: nat): seq<Entry<S>>
    requires k < |s|
  {
    s[..k] + s[k + 1..]
  }

  predicate Enabled<S>(s: State<S>, step: Step<S>) {
    match step
    case Connect(_) => true
    case Unsubscribe(id) => id < s.nextId
    case Begin => s.pc.Idle?
    case Check => s.pc.At? && s.pc.k < |s.list|
    case Erase => s.pc.Erasing? && s.pc.k < |s.list|
    case Done(_) => s.pc.Running? && s.pc.k < |s.list|
    case SwapOut => s.pc.At? && s.pc.k == |s.list|
    case Merge => s.pc.Merging?
  }

  /** `unsubscribe`: the id is tombstoned, and its entry deleted if it has only been added. */
  function Tombstone<S>(s: State<S>, id: nat): State<S> {
    s.(removed := s.removed + {id}, added := Minus(s.added, {id}),
       round := s.round.(gone := s.round.gone + {id}))
  }

  /** What a step does; one that is not enabled does nothing. */
  function Apply<S>(s: State<S>, step: Step<S>): State<S> {
    if !Enabled(s, step) then s
    else match step
      case Connect(slot) => s.(added := s.added + [Entry(slot, s.nextId)], nextId := s.nextId + 1)
      case Unsubscribe(id) => Tombstone(s, id)
      case Begin =>
        s.(list := s.list + s.added, added := [], pc := At(0),
           round := Round(Minus(s.list, s.removed) + s.added, [], {}, {}))
      case Check =>
        var e := s.list[s.pc.k];
        if e.id in s.removed then
          s.(removed := s.removed - {e.id}, pc := Erasing(s.pc.k),
             round := s.round.(missed := s.round.missed + {e.id}))
        else
          s.(pc := Running(s.pc.k), round := s.round.(ran := s.round.ran + [e]))
      case Erase => s.(list := WithoutAt(s.list, s.pc.k), pc := At(s.pc.k))
      case Done(expired) =>
        if expired then
          s.(list := WithoutAt(s.list, s.pc.k), pc := At(s.pc.k),
             round := s.round.(gone := s.round.gone + {s.list[s.pc.k].id}))
        else s.(pc := At(s.pc.k + 1))
      case SwapOut => s.(removed := {}, pc := Merging(s.removed))
      case Merge => s.(list := Minus(s.list, s.pc.dead), pc := Idle)
  }

  function Exec<S>(s: State<S>, steps: seq<Step<S>>): State<S>
    decreases |steps|
  {
    if steps == [] then s else Exec(Apply(s, steps[0]), steps[1..])
  }

  function Init<S>(): State<S> {
    State([], [], {}, 1, Idle, Round([], [], {}, {}))
  }

  // ----- the abstract observer: the ordered set of live subscriptions

  /** Ids already taken out of the tombstones whose entries are still to be erased. */
  function Pending<S>(s: State<S>): set<nat> {
    match s.pc
    case Erasing(k) => if k < |s.list| then {s.list[k].id} else {}
    case Merging(dead) => dead
    case _ => {}
  }

  function Live<S>(s: State<S>): seq<Entry<S>> {
    Minus(s.list, s.removed + Pending(s)) + s.added
  }

  /** What a step is to someone who sees only the live subscriptions. */
  function AbstractStep<S>(live: seq<Entry<S>>, s: State<S>, step: Step<S>): seq<Entry<S>> {
    match step
    case Connect(slot) => live + [Entry(slot, s.nextId)]
    case Unsubscribe(id) => if id < s.nextId then Minus(live, {id}) else live
    case Done(expired) => if Enabled(s, step) && expired then Minus(live, {s.list[s.pc.k].id}) else live
    case _ => live
  }

  ghost predicate Ascending<S>(s: seq<Entry<S>>) {
    forall i, j :: 0 <= i < j < |s| ==> s[i].id < s[j].id
  }

  ghost predicate Inv<S>(s: State<S>) {
    && Ascending(s.list + s.added)
    && (forall e :: e in s.list + s.added ==> e.id < s.nextId)
    && ClearOf(s.removed + Pending(s), s.added, s.nextId)
    && (s.pc.At? ==> s.pc.k <= |s.list|)
    && (s.pc.Erasing? || s.pc.Running? ==> s.pc.k < |s.list|)
  }

  // ----- filtering

  lemma {:induction false} MinusAppend<S>(a: seq<Entry<S>>, b: seq<Entry<S>>, dead: set<nat>)
    ensures Minus(a + b, dead) == Minus(a, dead) + Minus(b, dead)
  {
    if a == [] {
      assert a + b == b;
    } else {
      assert (a + b)[0] == a[0] && (a + b)[1..] == a[1..] + b;
      MinusAppend(a[1..], b, dead);
    }
  }

  lemma {:induction false} MinusMinus<S>(a: seq<Entry<S>>, x: set<nat>, y: set<nat>)
    ensures Minus(Minus(a, x), y) == Minus(a, x + y)
  {
    if a != [] {
      MinusMinus(a[1..], x, y);
      MinusAppend(if a[0].id in x then [] else [a[0]], Minus(a[1..], x), y);
      assert [a[0]][1..] == [];
    }
  }

  lemma {:induction false} MinusNothing<S>(a: seq<Entry<S>>, dead: set<nat>)
    requires forall e :: e in a ==> e.id !in dead
    ensures Minus(a, dead) == a
  {
    if a != [] {
      assert a[0] in a;
      MinusNothing(a[1..], dead);
    }
  }

  /** Deleting one entry of an ascending list is filtering by its id. */
  lemma {:induction false} MinusOne<S>(a: seq<Entry<S>>, k: nat)
    requires Ascending(a) && k < |a|
    ensures Minus(a, {a[k].id}) == WithoutAt(a, k)
    decreases k
  {
    var tail := a[1..];
    assert forall i :: 0 <= i < |tail| ==> tail[i] == a[i + 1];
    if k == 0 {
      MinusNothing(tail, {a[0].id});
    } else {
      MinusOne(tail, k - 1);
      assert WithoutAt(a, k) == [a[0]] + WithoutAt(tail, k - 1);
    }
  }

  lemma {:induction false} MinusMembers<S>(a: seq<Entry<S>>, dead: set<nat>, e: Entry<S>)
    ensures e in Minus(a, dead) <==> e in a && e.id !in dead
  {
    if a != [] {
      MinusMembers(a[1..], dead, e);
    }
  }

  lemma {:induction false} MinusAscending<S>(a: seq<Entry<S>>, dead: set<nat>)
    requires Ascending(a)
    ensures Ascending(Minus(a, dead))
  {
    if a != [] {
      MinusAscending(a[1..], dead);
      forall e | e in Minus(a[1..], dead) ensures a[0].id < e.id {
        MinusMembers(a[1..], dead, e);
      }
    }
  }

  // ----- every step keeps the lists in order and refines the abstract observer

  lemma ShorterAscending<S>(a: seq<Entry<S>>, b: seq<Entry<S>>, k: nat)
    requires Ascending(a + b) && k < |a|
    ensures Ascending(WithoutAt(a, k) + b) && Ascending(a)
    ensures forall e :: e in WithoutAt(a, k) + b ==> e in a + b
  {
    var c, d := WithoutAt(a, k) + b, a + b;
    assert forall i :: 0 <= i < |c| ==> c[i] == d[if i < k then i else i + 1];
    assert forall i :: 0 <= i < |a| ==> a[i] == d[i];
  }

  lemma FilteredAscending<S>(a: seq<Entry<S>>, b: seq<Entry<S>>, x: set<nat>, y: set<nat>)
    requires Ascending(a + b)
    ensures Ascending(Minus(a, x) + Minus(b, y))
    ensures forall e :: e in Minus(a, x) + Minus(b, y) ==> e in a + b
  {
    var c, d := Minus(a, x), Minus(b, y);
    Halves(a, b);
    MinusAscending(a, x);
    MinusAscending(b, y);
    forall e | e in c ensures e in a { MinusMembers(a, x, e); }
    forall e | e in d ensures e in b { MinusMembers(b, y, e); }
  }

  lemma Halves<S>(a: seq<Entry<S>>, b: seq<Entry<S>>)
    requires Ascending(a + b)
    ensures Ascending(a) && Ascending(b) && forall e, f :: e in a && f in b ==> e.id < f.id
  {
    assert forall i :: 0 <= i < |a| ==> a[i] == (a + b)[i];
    assert forall i :: 0 <= i < |b| ==> b[i] == (a + b)[|a| + i];
  }

  /** No id among `ids` belongs to an entry of `added`, and all are below `n`. */
  ghost predicate ClearOf<S>(ids: set<nat>, added: seq<Entry<S>>, n: nat) {
    forall id :: id in ids ==> id < n && forall e :: e in added ==> e.id != id
  }

  lemma ConnectKeepsOrder<S>(list: seq<Entry<S>>, added: seq<Entry<S>>, e: Entry<S>)
    requires Ascending(list + added) && forall x :: x in list + added ==> x.id < e.id
    ensures Ascending(list + (added + [e])) && forall x :: x in list + (added + [e]) ==> x.id < e.id + 1
  {
    var all := list + added;
    assert list + (added + [e]) == all + [e];
    assert forall i :: 0 <= i < |all| ==> all[i] in all;
  }

  lemma ConnectKeepsClear<S>(ids: set<nat>, added: seq<Entry<S>>, e: Entry<S>)
    requires ClearOf(ids, added, e.id)
    ensures ClearOf(ids, added + [e], e.id + 1)
  {
  }

  lemma UnsubscribeKeepsClear<S>(ids: set<nat>, added: seq<Entry<S>>, n: nat, id: nat)
    requires ClearOf(ids, added, n) && id < n
    ensures ClearOf(ids + {id}, Minus(added, {id}), n)
  {
    forall e | e in Minus(added, {id}) ensures e in added && e.id != id {
      MinusMembers(added, {id}, e);
    }
  }

  lemma UnsubscribeKeepsInv<S>(s: State<S>, id: nat)
    requires Inv(s) && id < s.nextId
    ensures Inv(Apply(s, Unsubscribe(id)))
  {
    FilteredAscending(s.list, s.added, {}, {id});
    MinusNothing(s.list, {});
    UnsubscribeKeepsClear(s.removed + Pending(s), s.added, s.nextId, id);
    assert s.removed + {id} + Pending(s) == s.removed + Pending(s) + {id};
  }

  /** An id may be tombstoned exactly if `connect` has given it out. */
  lemma TombstoneIffIssued<S>(s: State<S>, id: nat)
    requires Inv(s)
    ensures Inv(Tombstone(s, id)) <==> id < s.nextId
  {
    if id < s.nextId {
      UnsubscribeKeepsInv(s, id);
    } else {
      assert id in Tombstone(s, id).removed;
    }
  }

  /** An id tombstoned too early swallows the subscription that gets it: a round passes it over. */
  lemma UnissuedIdSwallowsNext<S>(slot: S)
    ensures var s := Exec(Tombstone(Init<S>(), 1), [Connect(slot), Begin, Check, Erase]);
      s.list == [] && s.added == [] && s.round.ran == [] && s.round.start == [Entry(slot, 1)]
  {
    var e, none: seq<Entry<S>> := Entry(slot, 1), [];
    var a := Tombstone(Init<S>(), 1);
    var b := Apply(a, Connect(slot));
    assert b == a.(added := [e], nextId := 2);
    var c := Apply(b, Begin);
    assert none + [e] == [e] && c == State([e], [], {0 + 1}, 2, At(0), Round([e], [], {}, {}));
    var d := Apply(c, Check);
    assert d.list == [e] && d.pc == Erasing(0) && d.round.ran == [];
    assert Apply(d, Erase).list == [];
    var four: seq<Step<S>>, three: seq<Step<S>> := [Connect(slot), Begin, Check, Erase], [Begin, Check, Erase];
    var two: seq<Step<S>> := [Check, Erase];
    assert four[1..] == three && three[1..] == two && two[1..] == [Erase];
    ExecOne(d, Erase);
  }

  lemma CheckKeepsInv<S>(s: State<S>)
    requires Inv(s) && s.pc.At? && s.pc.k < |s.list|
    ensures Inv(Apply(s, Check))
  {
    assert s.list[s.pc.k] in s.list + s.added;
    Halves(s.list, s.added);
  }

  lemma MergeKeepsInv<S>(s: State<S>)
    requires Inv(s) && s.pc.Merging?
    ensures Inv(Apply(s, Merge))
  {
    FilteredKeepsOrder(s.list, s.added, s.pc.dead, s.nextId);
  }

  lemma FilteredKeepsOrder<S>(list: seq<Entry<S>>, added: seq<Entry<S>>, dead: set<nat>, nextId: nat)
    requires Ascending(list + added) && forall e :: e in list + added ==> e.id < nextId
    ensures Ascending(Minus(list, dead) + added) && forall e :: e in Minus(list, dead) + added ==> e.id < nextId
  {
    FilteredAscending(list, added, dead, {});
    MinusNothing(added, {});
  }

  lemma LeavingKeepsInv<S>(s: State<S>, step: Step<S>)
    requires Inv(s) && Enabled(s, step) && (step.Erase? || step.Done?)
    ensures Inv(Apply(s, step))
  {
    ShorterAscending(s.list, s.added, s.pc.k);
  }

  /** The lists stay strictly ascending and apart, below the next id, and clear of the tombstones. */
  lemma ApplyKeepsInv<S>(s: State<S>, step: Step<S>)
    requires Inv(s)
    ensures Inv(Apply(s, step))
  {
    if Enabled(s, step) {
      match step
      case Connect(slot) =>
        ConnectKeepsOrder(s.list, s.added, Entry(slot, s.nextId));
        ConnectKeepsClear(s.removed + Pending(s), s.added, Entry(slot, s.nextId));
      case Unsubscribe(id) => UnsubscribeKeepsInv(s, id);
      case Begin => assert s.list + s.added + [] == s.list + s.added;
      case Check => CheckKeepsInv(s);
      case Erase => LeavingKeepsInv(s, step);
      case Done(_) => LeavingKeepsInv(s, step);
      case SwapOut =>
      case Merge => MergeKeepsInv(s);
    }
  }

  /** The live subscriptions change only as connecting, unsubscribing and expiring change them. */
  lemma ApplyRefines<S>(s: State<S>, step: Step<S>)
    requires Inv(s)
    ensures Live(Apply(s, step)) == AbstractStep(Live(s), s, step)
  {
    if Enabled(s, step) {
      match step
      case Connect(slot) => ConnectRefines(s, slot);
      case Unsubscribe(id) => UnsubscribeRefines(s, id);
      case Begin => SplicedEntries(s.list, s.added, s.removed);
      case Check => CheckRefines(s);
      case Erase =>
        Halves(s.list, s.added);
        ErasedEntry(s.list, s.pc.k, s.removed);
      case Done(expired) =>
        if expired {
          ExpiredEntry(s, s.pc.k);
        }
      case SwapOut => assert {} + s.removed == s.removed + {};
      case Merge => MergedEntries(s.list, s.pc.dead, s.removed);
    }
  }

  lemma ConnectRefines<S>(s: State<S>, slot: S)
    ensures Live(Apply(s, Connect(slot))) == Live(s) + [Entry(slot, s.nextId)]
  {
    var kept := Minus(s.list, s.removed + Pending(s));
    assert kept + (s.added + [Entry(slot, s.nextId)]) == kept + s.added + [Entry(slot, s.nextId)];
  }

  lemma UnsubscribeRefines<S>(s: State<S>, id: nat)
    requires id < s.nextId
    ensures Live(Apply(s, Unsubscribe(id))) == Minus(Live(s), {id})
  {
    assert s.removed + Pending(s) + {id} == s.removed + {id} + Pending(s);
    MinusOfBoth(s.list, s.added, s.removed + Pending(s), {id});
  }

  lemma CheckRefines<S>(s: State<S>)
    requires s.pc.At? && s.pc.k < |s.list|
    ensures Live(Apply(s, Check)) == Live(s)
  {
    var id := s.list[s.pc.k].id;
    assert id in s.removed ==> s.removed - {id} + {id} == s.removed + {};
  }

  lemma SplicedEntries<S>(list: seq<Entry<S>>, added: seq<Entry<S>>, removed: set<nat>)
    requires forall e :: e in added ==> e.id !in removed
    ensures Minus(list + added, removed + {}) + [] == Minus(list, removed + {}) + added
  {
    MinusAppend(list, added, removed + {});
    MinusNothing(added, removed + {});
  }

  lemma MergedEntries<S>(list: seq<Entry<S>>, dead: set<nat>, removed: set<nat>)
    ensures Minus(Minus(list, dead), removed + {}) == Minus(list, removed + dead)
  {
    MinusMinus(list, dead, removed);
    assert dead + removed == removed + dead && removed + {} == removed;
  }

  lemma MinusOfBoth<S>(a: seq<Entry<S>>, b: seq<Entry<S>>, x: set<nat>, y: set<nat>)
    ensures Minus(Minus(a, x) + b, y) == Minus(a, x + y) + Minus(b, y)
  {
    MinusAppend(Minus(a, x), b, y);
    MinusMinus(a, x, y);
  }

  lemma ErasedEntry<S>(list: seq<Entry<S>>, k: nat, removed: set<nat>)
    requires Ascending(list) && k < |list|
    ensures Minus(WithoutAt(list, k), removed + {}) == Minus(list, removed + {list[k].id})
  {
    MinusOne(list, k);
    MinusMinus(list, {list[k].id}, removed);
    assert {list[k].id} + removed == removed + {list[k].id} && removed + {} == removed;
  }

  lemma ExpiredEntry<S>(s: State<S>, k: nat)
    requires Inv(s) && s.pc.Running? && k == s.pc.k
    ensures Minus(WithoutAt(s.list, k), s.removed + {}) + s.added == Minus(Live(s), {s.list[k].id})
  {
    var id := s.list[k].id;
    Halves(s.list, s.added);
    ErasedEntry(s.list, k, s.removed);
    MinusMinus(s.list, s.removed + {}, {id});
    assert s.removed + {} + {id} == s.removed + {id};
    MinusAppend(Minus(s.list, s.removed + {}), s.added, {id});
    assert s.list[k] in s.list;
    MinusNothing(s.added, {id});
  }

  // ----- what a round runs

  /** The entries the round has yet to check. */
  function Todo<S>(s: State<S>): seq<Entry<S>> {
    match s.pc
    case At(k) => if k <= |s.list| then s.list[k..] else []
    case Erasing(k) => if k < |s.list| then s.list[k + 1..] else []
    case Running(k) => if k < |s.list| then s.list[k + 1..] else []
    case _ => []
  }

  /**
   * Every entry of the start has been run, found removed or is still to come; what ran was in the
   * start and runs in ascending order; what was missed, or will be, went after the start, and
   * what is to come will be missed if it was not in the start or has gone.
   */
  ghost predicate Accounts<S>(r: Round<S>, removed: set<nat>, todo: seq<Entry<S>>) {
    && Ascending(r.start) && Ascending(r.ran + todo)
    && (forall e :: e in r.ran ==> e in r.start && e.id !in r.missed)
    && (forall e :: e in r.start ==> e in r.ran || e.id in r.missed || e in todo)
    && (forall e :: e in r.start && (e.id in r.missed || e.id in removed) ==> e.id in r.gone)
    && (forall e :: e in todo ==> e.id !in r.missed && (e !in r.start || e.id in r.gone ==> e.id in removed))
  }

  ghost predicate RoundInv<S>(s: State<S>) {
    Accounts(s.round, s.removed, Todo(s))
  }

  lemma AccountsAfterMiss<S>(r: Round<S>, removed: set<nat>, t: Entry<S>, rest: seq<Entry<S>>)
    requires Accounts(r, removed, [t] + rest) && t.id in removed
    ensures Accounts(r.(missed := r.missed + {t.id}), removed - {t.id}, rest)
  {
    var todo := [t] + rest;
    assert todo[0] == t && forall i :: 0 <= i < |rest| ==> rest[i] == todo[i + 1];
    assert r.ran + todo == r.ran + [t] + rest;
    Halves(r.ran + [t], rest);
    Halves(r.ran, todo);
    WithoutMiddle(r.ran, t, rest);
    assert t in todo && t in r.ran + [t];
  }

  lemma WithoutMiddle<S>(a: seq<Entry<S>>, t: Entry<S>, b: seq<Entry<S>>)
    requires Ascending(a + [t] + b)
    ensures Ascending(a + b)
  {
    var c, d := a + b, a + [t] + b;
    assert forall i :: 0 <= i < |c| ==> c[i] == d[if i < |a| then i else i + 1];
  }

  lemma AccountsAfterRun<S>(r: Round<S>, removed: set<nat>, t: Entry<S>, rest: seq<Entry<S>>)
    requires Accounts(r, removed, [t] + rest) && t.id !in removed
    ensures t in r.start && t.id !in r.gone
    ensures Accounts(r.(ran := r.ran + [t]), removed, rest)
  {
    var todo := [t] + rest;
    assert todo[0] == t && forall i :: 0 <= i < |rest| ==> rest[i] == todo[i + 1];
    assert r.ran + todo == r.ran + [t] + rest;
    assert t in todo;
  }

  lemma AccountsAfterUnsubscribe<S>(r: Round<S>, removed: set<nat>, todo: seq<Entry<S>>, id: nat)
    requires Accounts(r, removed, todo)
    ensures Accounts(r.(gone := r.gone + {id}), removed + {id}, todo)
  {
  }

  lemma AccountsAfterExpiry<S>(r: Round<S>, removed: set<nat>, todo: seq<Entry<S>>, id: nat)
    requires Accounts(r, removed, todo) && forall e :: e in todo ==> e.id != id
    ensures Accounts(r.(gone := r.gone + {id}), removed, todo)
  {
  }

  lemma AccountsAtBegin<S>(list: seq<Entry<S>>, added: seq<Entry<S>>, removed: set<nat>)
    requires Ascending(list + added) && forall e :: e in added ==> e.id !in removed
    ensures Accounts(Round(Minus(list, removed) + added, [], {}, {}), removed, list + added)
  {
    var start, todo, none: seq<Entry<S>> := Minus(list, removed) + added, list + added, [];
    FilteredAscending(list, added, removed, {});
    MinusNothing(added, {});
    assert none + todo == todo;
    forall e | e in todo ensures e in start <==> e.id !in removed {
      MinusMembers(list, removed, e);
      assert e in list || e in added;
    }
  }

  lemma CheckKeepsRound<S>(s: State<S>)
    requires RoundInv(s) && s.pc.At? && s.pc.k < |s.list|
    ensures RoundInv(Apply(s, Check))
  {
    var t, rest := s.list[s.pc.k], s.list[s.pc.k + 1..];
    assert Todo(s) == [t] + rest && Todo(Apply(s, Check)) == rest;
    if t.id in s.removed {
      AccountsAfterMiss(s.round, s.removed, t, rest);
    } else {
      AccountsAfterRun(s.round, s.removed, t, rest);
    }
  }

  lemma ExpiryKeepsRound<S>(s: State<S>)
    requires Inv(s) && RoundInv(s) && s.pc.Running?
    ensures RoundInv(Apply(s, Done(true)))
  {
    var k := s.pc.k;
    Halves(s.list, s.added);
    assert WithoutAt(s.list, k)[k..] == s.list[k + 1..];
    var rest := s.list[k + 1..];
    assert forall i :: 0 <= i < |rest| ==> rest[i] == s.list[k + 1 + i];
    AccountsAfterExpiry(s.round, s.removed, rest, s.list[k].id);
  }

  lemma OtherKeepsRound<S>(s: State<S>, step: Step<S>)
    requires Inv(s) && RoundInv(s) && Enabled(s, step) && (step.Erase? || step.Done? || step.SwapOut? || step.Merge?)
    requires step.Done? ==> !step.expired
    ensures RoundInv(Apply(s, step))
  {
    if step.Erase? {
      assert WithoutAt(s.list, s.pc.k)[s.pc.k..] == s.list[s.pc.k + 1..];
    } else if step.SwapOut? {
      assert s.list[|s.list|..] == [];
    }
  }

  lemma ApplyKeepsRound<S>(s: State<S>, step: Step<S>)
    requires Inv(s) && RoundInv(s)
    ensures RoundInv(Apply(s, step))
  {
    if Enabled(s, step) {
      match step
      case Connect(slot) => assert Todo(Apply(s, step)) == Todo(s);
      case Unsubscribe(id) =>
        assert Todo(Apply(s, step)) == Todo(s);
        AccountsAfterUnsubscribe(s.round, s.removed, Todo(s), id);
      case Begin =>
        AccountsAtBegin(s.list, s.added, s.removed);
        assert Todo(Apply(s, step)) == s.list + s.added;
      case Check => CheckKeepsRound(s);
      case Done(expired) =>
        if expired {
          ExpiryKeepsRound(s);
        } else {
          OtherKeepsRound(s, step);
        }
      case _ => OtherKeepsRound(s, step);
    }
  }

  // ----- consequences over whole runs

  lemma {:induction false} ExecKeepsAll<S>(s: State<S>, steps: seq<Step<S>>)
    requires Inv(s) && RoundInv(s)
    ensures Inv(Exec(s, steps)) && RoundInv(Exec(s, steps))
    decreases |steps|
  {
    if steps != [] {
      ApplyKeepsInv(s, steps[0]);
      ApplyKeepsRound(s, steps[0]);
      ExecKeepsAll(Apply(s, steps[0]), steps[1..]);
    }
  }

  lemma InitKeepsAll<S>()
    ensures Inv(Init<S>()) && RoundInv(Init<S>())
  {
  }

  /** The abstract observer run on the same steps. */
  function AbstractExec<S>(live: seq<Entry<S>>, s: State<S>, steps: seq<Step<S>>): seq<Entry<S>>
    decreases |steps|
  {
    if steps == [] then live
    else AbstractExec(AbstractStep(live, s, steps[0]), Apply(s, steps[0]), steps[1..])
  }

  /** In every reachable state the live subscriptions are those of the ordered set. */
  lemma {:induction false} ExecRefines<S>(s: State<S>, steps: seq<Step<S>>)
    requires Inv(s)
    ensures Live(Exec(s, steps)) == AbstractExec(Live(s), s, steps)
    decreases |steps|
  {
    if steps != [] {
      ApplyRefines(s, steps[0]);
      ApplyKeepsInv(s, steps[0]);
      ExecRefines(Apply(s, steps[0]), steps[1..]);
    }
  }

  lemma ReachableRefines<S>(steps: seq<Step<S>>)
    ensures var s := Exec(Init<S>(), steps);
      Inv(s) && Live(s) == AbstractExec([], Init<S>(), steps) && Ascending(Live(s))
  {
    InitKeepsAll<S>();
    ExecKeepsAll(Init<S>(), steps);
    ExecRefines(Init<S>(), steps);
    var s := Exec(Init<S>(), steps);
    FilteredAscending(s.list, s.added, s.removed + Pending(s), {});
    MinusNothing(s.added, {});
  }

  lemma VisitedLive<S>(s: State<S>)
    requires Inv(s) && s.pc.At? && s.pc.k < |s.list|
    ensures var e := s.list[s.pc.k];
      && Todo(s) == [e] + s.list[s.pc.k + 1..]
      && (e in Live(s) <==> e.id !in s.removed)
  {
    var e := s.list[s.pc.k];
    MinusMembers(s.list, s.removed + {}, e);
    Halves(s.list, s.added);
    assert e in s.list;
  }

  lemma AccountOfVisited<S>(r: Round<S>, removed: set<nat>, t: Entry<S>, rest: seq<Entry<S>>)
    requires Accounts(r, removed, [t] + rest)
    ensures t.id !in removed <==> t in r.start && t.id !in r.gone
  {
    var todo := [t] + rest;
    assert todo[0] == t && t in todo;
  }

  /** An entry is run exactly when it is live at the moment it is checked. */
  lemma CheckRunsTheLive<S>(s: State<S>)
    requires Inv(s) && RoundInv(s) && s.pc.At? && s.pc.k < |s.list|
    ensures var e := s.list[s.pc.k]; var r := Apply(s, Check).round;
      && (e in Live(s) ==> r.ran == s.round.ran + [e] && r.missed == s.round.missed)
      && (e !in Live(s) ==> r.ran == s.round.ran && r.missed == s.round.missed + {e.id})
      && (e in Live(s) <==> e in s.round.start && e.id !in s.round.gone)
  {
    VisitedLive(s);
    AccountOfVisited(s.round, s.removed, s.list[s.pc.k], s.list[s.pc.k + 1..]);
  }

  lemma FirstIsMember<S>(a: seq<Entry<S>>)
    ensures a != [] ==> a[0] in a
  {
  }

  lemma {:induction false} AscendingUnique<S>(a: seq<Entry<S>>, b: seq<Entry<S>>)
    requires Ascending(a) && Ascending(b) && forall e :: e in a <==> e in b
    ensures a == b
    decreases |a|
  {
    FirstIsMember(a);
    FirstIsMember(b);
    if a != [] && b != [] {
      assert a[0] in b && b[0] in a;
      assert a[0] == b[0];
      forall e | e in a[1..] ensures e in b[1..] { assert e in a && e != a[0] && e in b; }
      forall e | e in b[1..] ensures e in a[1..] { assert e in b && e != b[0] && e in a; }
      AscendingUnique(a[1..], b[1..]);
      assert a == [a[0]] + a[1..] && b == [b[0]] + b[1..];
    }
  }

  /**
   * Once a round has checked everything: it ran, each once and in subscription order, exactly
   * the subscriptions live at its start and not found removed, and only those that had been
   * unsubscribed since were found removed. So one that stayed live throughout has been run, and
   * one connected during the round has not.
   */
  lemma RoundResult<S>(s: State<S>, steps: seq<Step<S>>)
    requires Inv(s) && RoundInv(s)
    ensures var t := Exec(s, steps); var r := t.round;
      Todo(t) == [] ==>
        && r.ran == Minus(r.start, r.missed) && Ascending(r.ran)
        && (forall e :: e in r.start && e.id in r.missed ==> e.id in r.gone)
        && (forall e :: e in r.start && e.id !in r.gone ==> e in r.ran)
  {
    ExecKeepsAll(s, steps);
    var t := Exec(s, steps);
    if Todo(t) == [] {
      var r := t.round;
      assert r.ran + [] == r.ran;
      forall e ensures e in r.ran <==> e in Minus(r.start, r.missed) {
        MinusMembers(r.start, r.missed, e);
      }
      MinusAscending(r.start, r.missed);
      AscendingUnique(r.ran, Minus(r.start, r.missed));
    }
  }

  lemma {:induction false} ExecAppend<S>(s: State<S>, xs: seq<Step<S>>, ys: seq<Step<S>>)
    ensures Exec(s, xs + ys) == Exec(Exec(s, xs), ys)
    decreases |xs|
  {
    if xs == [] {
      assert xs + ys == ys;
    } else {
      assert (xs + ys)[0] == xs[0] && (xs + ys)[1..] == xs[1..] + ys;
      ExecAppend(Apply(s, xs[0]), xs[1..], ys);
    }
  }

  lemma ExecOne<S>(s: State<S>, step: Step<S>)
    ensures Exec(s, [step]) == Apply(s, step)
  {
    assert [step][1..] == [];
  }
}
