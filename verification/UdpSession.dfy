/**
 * The UDP server: datagrams are copied into recycled buffers, posted to the strand and queued
 * until their session asks for them. `SessionModel` has no buffers; the classes here keep to it
 * because no buffer is ever in two places.
 */
module UdpSession {
  import opened Bytes
  import M = SessionModel
  import A = AcceptorModel

  class Buffer {
    var bytes: seq<byte>

    constructor ()
      ensures bytes == []
    {
      bytes := [];
    }
  }

  /** `cache::simple`: at most `maximum` buffers kept for reuse, the oldest first. */
  class Cache {
    const maximum: nat
    var cache: seq<Buffer>

    constructor (maximum: nat)
      ensures this.maximum == maximum && cache == []
    {
      this.maximum, cache := maximum, [];
    }

    method Get() returns (b: Buffer)
      modifies this
      ensures if old(cache) == [] then fresh(b) && b.bytes == [] && cache == []
        else old(cache) == [b] + cache
    {
      if cache == [] {
        b := new Buffer();
      } else {
        b := cache[0];
        cache := cache[1..];
      }
    }

    /** A full cache, or one of no size, lets the buffer go. */
    method Push(b: Buffer)
      modifies this
      ensures cache == if |old(cache)| < maximum then old(cache) + [b] else old(cache)
    {
      if maximum > 0 && |cache| < maximum {
        cache := cache + [b];
      }
    }
  }

  datatype Posted = Pushed(data: Buffer) | SetRead

  /** The buffers waiting in posted tasks. */
  function Buffers(strand: seq<Posted>): seq<Buffer> {
    if strand == [] then []
    else (if strand[0].Pushed? then [strand[0].data] else []) + Buffers(strand[1..])
  }

  lemma {:induction false} BuffersAppend(a: seq<Posted>, b: seq<Posted>)
    ensures Buffers(a + b) == Buffers(a) + Buffers(b)
  {
    if a == [] {
      assert a + b == b;
    } else {
      assert (a + b)[0] == a[0] && (a + b)[1..] == a[1..] + b;
      BuffersAppend(a[1..], b);
    }
  }

  /** Where a client's buffers are, and what is in them. */
  datatype Layout = Layout(cache: seq<Buffer>, queue: seq<Buffer>, strand: seq<Posted>, held: map<Buffer, seq<byte>>)

  function Owners(l: Layout): seq<Buffer> {
    l.cache + l.queue + Buffers(l.strand)
  }

  /** No buffer is in two places. */
  ghost predicate Single(owners: seq<Buffer>, held: map<Buffer, seq<byte>>) {
    && (forall i, j :: 0 <= i < j < |owners| ==> owners[i] != owners[j])
    && (forall i :: 0 <= i < |owners| ==> owners[i] in held)
  }

  ghost predicate QueueHolds(queue: seq<Buffer>, model: seq<M.Datagram>, held: map<Buffer, seq<byte>>) {
    |queue| == |model| && forall i :: 0 <= i < |queue| ==> queue[i] in held && held[queue[i]] == model[i].bytes
  }

  ghost predicate TaskHolds(task: Posted, model: M.Task, held: map<Buffer, seq<byte>>) {
    match task
    case SetRead => model.SetRead?
    case Pushed(b) => model.Push? && b in held && held[b] == model.datagram.bytes
  }

  ghost predicate StrandHolds(strand: seq<Posted>, model: seq<M.Task>, held: map<Buffer, seq<byte>>) {
    |strand| == |model| && forall i :: 0 <= i < |strand| ==> TaskHolds(strand[i], model[i], held)
  }

  /** No two places share a buffer, and the buffers waiting hold what arrived. */
  ghost predicate Sound(l: Layout, model: M.State) {
    && Single(Owners(l), l.held)
    && QueueHolds(l.queue, model.queue, l.held)
    && StrandHolds(l.strand, model.tasks, l.held)
  }

  lemma {:induction false} CountedOnce(owners: seq<Buffer>, held: map<Buffer, seq<byte>>, b: Buffer)
    requires Single(owners, held)
    ensures multiset(owners)[b] <= 1
    decreases |owners|
  {
    if owners != [] {
      var last := |owners| - 1;
      assert owners == owners[..last] + [owners[last]];
      CountedOnce(owners[..last], held, b);
      assert b == owners[last] ==> b !in owners[..last];
    }
  }

  lemma FewerStaySingle(few: seq<Buffer>, owners: seq<Buffer>, held: map<Buffer, seq<byte>>)
    requires Single(owners, held) && multiset(few) <= multiset(owners)
    ensures Single(few, held)
  {
    forall i, j | 0 <= i < j < |few| ensures few[i] != few[j] {
      assert few == few[..j] + few[j..] && few[i] in few[..j] && few[j] in few[j..];
      CountedOnce(owners, held, few[i]);
    }
    forall i | 0 <= i < |few| ensures few[i] in held {
      assert few[i] in multiset(few);
      assert few[i] in owners;
    }
  }

  lemma OneMoreStaysSingle(owners: seq<Buffer>, b: Buffer, held: map<Buffer, seq<byte>>)
    requires Single(owners, held) && b !in owners && b in held
    ensures Single(owners + [b], held)
  {
  }

  lemma {:induction false} PostedIsOwned(strand: seq<Posted>, b: Buffer)
    requires b !in Buffers(strand)
    ensures forall i :: 0 <= i < |strand| ==> strand[i] != Pushed(b)
  {
    if strand != [] {
      PostedIsOwned(strand[1..], b);
    }
  }

  /** A buffer in none of the places is written without touching what any of them holds. */
  lemma Written(l: Layout, model: M.State, b: Buffer, data: seq<byte>)
    requires Sound(l, model) && b !in Owners(l)
    ensures Sound(l.(held := l.held[b := data]), model)
  {
    PostedIsOwned(l.strand, b);
    assert forall i :: 0 <= i < |l.queue| ==> l.queue[i] == Owners(l)[|l.cache| + i];
  }

  /** A buffer taken from the cache is nowhere else. */
  lemma Taken(l: Layout, model: M.State, rest: seq<Buffer>, b: Buffer)
    requires Sound(l, model) && l.cache == [b] + rest
    ensures var t := l.(cache := rest); Sound(t, model) && b !in Owners(t) && b in l.held
  {
    var t := l.(cache := rest);
    assert Owners(l) == [b] + Owners(t);
    assert Owners(l)[0] == b && forall i :: 0 <= i < |Owners(t)| ==> Owners(t)[i] == Owners(l)[i + 1];
  }

  lemma PostedOnce(l: Layout, model: M.State, task: Posted, t: M.Task)
    requires Sound(l, model) && TaskHolds(task, t, l.held) && (task.Pushed? ==> task.data !in Owners(l))
    ensures Sound(l.(strand := l.strand + [task]), model.(tasks := model.tasks + [t]))
  {
    var more := l.(strand := l.strand + [task]);
    BuffersAppend(l.strand, [task]);
    assert [task][1..] == [];
    if task.Pushed? {
      assert Owners(more) == Owners(l) + [task.data];
      OneMoreStaysSingle(Owners(l), task.data, l.held);
    } else {
      assert Owners(more) == Owners(l);
    }
  }

  /** The task posted first gives up its buffer. */
  lemma FrontTaken(l: Layout, model: M.State)
    requires Sound(l, model) && l.strand != []
    ensures var t := l.(strand := l.strand[1..]); var task := l.strand[0];
      && Sound(t, model.(tasks := model.tasks[1..])) && TaskHolds(task, model.tasks[0], l.held)
      && (task.Pushed? ==> task.data !in Owners(t))
  {
    var t, task := l.(strand := l.strand[1..]), l.strand[0];
    if task.Pushed? {
      assert multiset(Owners(l)) == multiset(Owners(t)) + multiset{task.data};
      CountedOnce(Owners(l), l.held, task.data);
    } else {
      assert Owners(l) == Owners(t);
    }
    FewerStaySingle(Owners(t), Owners(l), l.held);
  }

  /** The cache after a push, whether or not it had room. */
  ghost predicate Cached(b: Buffer, before: seq<Buffer>, after: seq<Buffer>) {
    after == before + [b] || after == before
  }

  /** The front of the read queue is taken back into the cache. */
  lemma Recycled(l: Layout, model: M.State, after: seq<Buffer>)
    requires Sound(l, model) && l.queue != [] && Cached(l.queue[0], l.cache, after)
    ensures Sound(l.(cache := after, queue := l.queue[1..]), model.(queue := model.queue[1..]))
    ensures l.queue[0] in l.held && l.held[l.queue[0]] == model.queue[0].bytes
  {
    assert l.queue == [l.queue[0]] + l.queue[1..];
    FewerStaySingle(Owners(l.(cache := after, queue := l.queue[1..])), Owners(l), l.held);
  }

  /** The buffer of a task is taken back into the cache. */
  lemma Returned(l: Layout, model: M.State, b: Buffer, after: seq<Buffer>)
    requires Sound(l, model) && b !in Owners(l) && b in l.held && Cached(b, l.cache, after)
    ensures Sound(l.(cache := after), model)
  {
    OneMoreStaysSingle(Owners(l), b, l.held);
    FewerStaySingle(Owners(l.(cache := after)), Owners(l) + [b], l.held);
  }

  /** The buffer of a task goes to the read queue. */
  lemma Queued(l: Layout, model: M.State, b: Buffer, d: M.Datagram)
    requires Sound(l, model) && b !in Owners(l) && b in l.held && l.held[b] == d.bytes
    ensures Sound(l.(queue := l.queue + [b]), model.(queue := model.queue + [d]))
  {
    OneMoreStaysSingle(Owners(l), b, l.held);
    FewerStaySingle(Owners(l.(queue := l.queue + [b])), Owners(l) + [b], l.held);
  }

  class Client {
    const maxCache: nat
    const cache: Cache
    var read: bool
    var readQueue: seq<Buffer>
    /** What has been posted to the strand for this client. */
    var strand: seq<Posted>
    /** Calls of the delegate's `on_close`. */
    var closeCalls: nat
    ghost var model: M.State
    /** Every buffer the client has had, and what is in it. */
    ghost var held: map<Buffer, seq<byte>>

    ghost function Now(): Layout
      reads this, cache
    {
      Layout(cache.cache, readQueue, strand, held)
    }

    ghost predicate Valid()
      reads this, cache, held.Keys
    {
      && cache.maximum == maxCache && read == model.read
      && Sound(Now(), model)
      && forall b :: b in held.Keys ==> b.bytes == held[b]
    }

    /** The session's own invariant holds too: a pending read means an empty queue, and so on. */
    ghost predicate Consistent()
      reads this, cache, held.Keys
    {
      Valid() && M.Inv(maxCache, model)
    }

    /** A client is accepted with the datagram that made it known. */
    constructor (maxCache: nat, first: seq<byte>)
      ensures Valid() && model == M.Accepted(first) && this.maxCache == maxCache
      ensures maxCache > 0 ==> Consistent()
      ensures fresh(cache) && fresh(held.Keys) && closeCalls == 0
    {
      this.maxCache := maxCache;
      var c := new Cache(maxCache);
      var b := c.Get();
      b.bytes := first;
      cache := c;
      read, readQueue, strand, closeCalls := false, [b], [], 0;
      model, held := M.Accepted(first), map[b := first];
      new;
      if maxCache > 0 {
        M.AcceptedInv(maxCache, first);
      }
    }

    lemma StepKeeps(step: M.Step)
      ensures M.Inv(maxCache, model) ==> M.Inv(maxCache, M.Apply(maxCache, model, step))
    {
      if M.Inv(maxCache, model) {
        M.ApplyKeepsInv(maxCache, model, step);
      }
    }

    /** `cache_.get()` and `assign`: the datagram is copied to a buffer that is in none of the places. */
    method Fill(data: seq<byte>) returns (b: Buffer)
      requires Valid()
      modifies cache, this`held, held.Keys
      ensures Valid() && b in held && held[b] == data && b !in Owners(Now())
      ensures held.Keys == old(held.Keys) || (held.Keys == old(held.Keys) + {b} && fresh(b))
      ensures if old(cache.cache) == [] then fresh(b) && cache.cache == [] else old(cache.cache) == [b] + cache.cache
    {
      ghost var was := Now();
      b := cache.Get();
      ghost var now := was.(cache := cache.cache);
      if was.cache != [] {
        Taken(was, model, cache.cache, b);
      } else {
        assert now == was && forall i :: 0 <= i < |Owners(now)| ==> Owners(now)[i] in held.Keys;
      }
      Written(now, model, b, data);
      b.bytes := data;
      held := held[b := data];
    }

    /** `push_data`: the datagram goes to the strand in a buffer of its own. */
    method PushData(data: seq<byte>) returns (ghost b: Buffer)
      requires Valid()
      modifies this`strand, this`model, this`held, cache, held.Keys
      ensures Valid() && model == M.Apply(maxCache, old(model), M.Arrive(data))
      ensures old(Consistent()) ==> Consistent()
      ensures forall b :: b in held.Keys ==> b in old(held.Keys) || fresh(b)
      ensures strand == old(strand) + [Pushed(b)] && b in held && held[b] == data
    {
      StepKeeps(M.Arrive(data));
      var buffer := Fill(data);
      b := buffer;
      ghost var d := M.Datagram(|model.arrivals|, data);
      model := model.(arrivals := model.arrivals + [d]);
      Post(Pushed(buffer), M.Push(d));
    }

    method Read()
      requires Valid()
      modifies this`strand, this`model
      ensures Valid() && model == M.Apply(maxCache, old(model), M.Read)
      ensures old(Consistent()) ==> Consistent()
      ensures strand == old(strand) + [SetRead]
    {
      StepKeeps(M.Read);
      Post(SetRead, M.SetRead);
    }

    method Post(task: Posted, ghost t: M.Task)
      requires Valid() && TaskHolds(task, t, held) && (task.Pushed? ==> task.data !in Owners(Now()))
      modifies this`strand, this`model
      ensures Valid() && model == old(model).(tasks := old(model).tasks + [t]) && strand == old(strand) + [task]
    {
      PostedOnce(Now(), model, task, t);
      strand := strand + [task];
      model := model.(tasks := model.tasks + [t]);
    }

    /** The cache with one more buffer, if there is room for it. */
    function Kept(buffers: seq<Buffer>, b: Buffer): seq<Buffer> {
      if |buffers| < maxCache then buffers + [b] else buffers
    }

    /** The read handler; `out` is what the delegate was given. */
    method SetReadImpl() returns (out: seq<seq<byte>>)
      requires Valid()
      modifies this`read, this`readQueue, this`model, cache
      ensures Valid() && model == M.RunTask(maxCache, old(model), M.SetRead)
      ensures if !old(read) && old(readQueue) != []
        then old(readQueue) == [old(readQueue)[0]] + readQueue
          && cache.cache == Kept(old(cache.cache), old(readQueue)[0])
        else readQueue == old(readQueue) && cache.cache == old(cache.cache)
      ensures M.BytesOf(model.delivered) == M.BytesOf(old(model.delivered)) + out
    {
      out := [];
      if !read {
        read := true;
        if readQueue != [] {
          ghost var was := Now();
          out := [readQueue[0].bytes];
          cache.Push(readQueue[0]);
          readQueue := readQueue[1..];
          read := false;
          Recycled(was, model, cache.cache);
          M.BytesOfMore(model.delivered, model.queue[0]);
        }
      }
      model := M.RunTask(maxCache, model, M.SetRead);
    }

    /** The datagram handler, run with the buffer of its task. */
    method PushDataImpl(data: Buffer, ghost d: M.Datagram) returns (out: seq<seq<byte>>)
      requires Valid() && data in held && held[data] == d.bytes && data !in Owners(Now())
      modifies this`readQueue, this`model, cache
      ensures Valid() && model == M.RunTask(maxCache, old(model), M.Push(d))
      ensures if !read && |old(readQueue)| < maxCache
        then readQueue == old(readQueue) + [data] && cache.cache == old(cache.cache)
        else readQueue == old(readQueue) && cache.cache == Kept(old(cache.cache), data)
      ensures M.BytesOf(model.delivered) == M.BytesOf(old(model.delivered)) + out
    {
      ghost var was := Now();
      M.BytesOfMore(model.delivered, d);
      out := [];
      if read {
        out := [data.bytes];
        cache.Push(data);
        Returned(was, model, data, cache.cache);
      } else {
        if |readQueue| < maxCache {
          readQueue := readQueue + [data];
          Queued(was, model, data, d);
        } else {
          cache.Push(data);
          Returned(was, model, data, cache.cache);
        }
      }
      model := M.RunTask(maxCache, model, M.Push(d));
    }

    /** The strand runs the task posted first. */
    method RunFront() returns (out: seq<seq<byte>>)
      requires Valid()
      modifies this`read, this`readQueue, this`strand, this`model, cache
      ensures Valid() && model == M.Apply(maxCache, old(model), M.Run)
      ensures M.BytesOf(model.delivered) == M.BytesOf(old(model.delivered)) + out
      ensures strand == if old(strand) == [] then [] else old(strand)[1..]
      ensures old(Consistent()) ==> Consistent()
    {
      StepKeeps(M.Run);
      out := [];
      if strand != [] {
        ghost var front := model.tasks[0];
        var task := PopTask();
        match task
        case SetRead => out := SetReadImpl();
        case Pushed(b) => out := PushDataImpl(b, front.datagram);
      }
    }

    method PopTask() returns (task: Posted)
      requires Valid() && strand != []
      modifies this`strand, this`model
      ensures Valid() && model == old(model).(tasks := old(model).tasks[1..]) && old(strand) == [task] + strand
      ensures TaskHolds(task, old(model).tasks[0], held)
      ensures task.Pushed? ==> task.data !in Owners(Now())
    {
      FrontTaken(Now(), model);
      task := strand[0];
      strand := strand[1..];
      model := model.(tasks := model.tasks[1..]);
    }
  }

  /** How many buffers a new client queues and keeps. */
  const CLIENT_CACHE: nat := 10

  /** The clients share no object. */
  ghost predicate Strangers(a: Client, b: Client)
    reads a, b
  {
    a != b && a.cache != b.cache && forall x :: x in a.held ==> x !in b.held
  }

  /** `accept_delegate`: datagrams are told apart by the endpoint they come from. */
  class Acceptor<E(==, !new)> {
    var accepting: bool
    var clients: map<E, Client>

    ghost predicate Apart()
      reads `clients, clients.Values
    {
      forall e, f :: e in clients && f in clients && e != f ==> Strangers(clients[e], clients[f])
    }

    ghost predicate Valid()
      reads `clients, clients.Values
      reads set e | e in clients :: clients[e].cache
      reads set e, b | e in clients && b in clients[e].held.Keys :: b
    {
      Apart() && forall e :: e in clients ==> clients[e].Valid() && clients[e].maxCache == CLIENT_CACHE
    }

    /** The sessions as the model has them. */
    ghost function Abs(): A.Server<E>
      reads `accepting, `clients, clients.Values
    {
      A.Server(accepting, Sessions())
    }

    ghost function Sessions(): map<E, M.State>
      reads `clients, clients.Values
    {
      map e | e in clients :: clients[e].model
    }

    /** Every session satisfies its own invariant, too. */
    ghost predicate Consistent()
      reads `accepting, `clients, clients.Values
      reads set e | e in clients :: clients[e].cache
      reads set e, b | e in clients && b in clients[e].held.Keys :: b
    {
      Valid() && A.Inv(CLIENT_CACHE, Abs())
    }

    lemma Sound(s: A.Server<E>)
      requires Valid() && Abs() == s
      ensures A.Inv(CLIENT_CACHE, s) ==> Consistent()
    {
    }

    /** The other endpoints' clients are as they were. */
    twostate predicate OthersKept(ep: E)
      reads `clients, clients.Values
    {
      && (forall e :: e in old(clients) && e != ep ==> e in clients)
      && (forall e :: e in clients && e != ep ==>
            e in old(clients) && clients[e] == old(clients[e]) && clients[e].model == old(clients[e].model))
    }

    constructor (accepting: bool)
      ensures Consistent() && clients == map[] && Abs() == A.Init(accepting)
    {
      this.accepting, clients := accepting, map[];
    }

    method StartAccept()
      requires Valid()
      modifies `accepting
      ensures Valid() && accepting && Abs() == A.Apply(CLIENT_CACHE, old(Abs()), A.StartAccept)
      ensures old(Consistent()) ==> Consistent()
    {
      ghost var next := A.Apply(CLIENT_CACHE, Abs(), A.StartAccept);
      A.InvKept(CLIENT_CACHE, Abs(), A.StartAccept);
      Listen();
      Sound(next);
    }

    method Listen()
      requires Valid()
      modifies `accepting
      ensures Valid() && accepting && Sessions() == old(Sessions())
    {
      accepting := true;
    }

    /** A known endpoint's datagram is its client's; an unknown one's makes a client if any are wanted. */
    method OnData(ep: E, data: seq<byte>) returns (accepted: bool)
      requires Valid()
      modifies this`clients
      modifies if ep in clients then {clients[ep], clients[ep].cache} + clients[ep].held.Keys else {}
      ensures Valid() && OthersKept(ep) && Abs() == A.Apply(CLIENT_CACHE, old(Abs()), A.Data(ep, data))
      ensures accepted == (accepting && ep !in old(clients)) && (ep in clients <==> ep in old(clients) || accepted)
      ensures ep in old(clients) ==> clients[ep] == old(clients[ep])
      ensures accepted ==> clients[ep].maxCache == 10
      ensures old(Consistent()) ==> Consistent()
    {
      ghost var next := A.Apply(CLIENT_CACHE, Abs(), A.Data(ep, data));
      A.InvKept(CLIENT_CACHE, Abs(), A.Data(ep, data));
      accepted := Dispatch(ep, data);
      Sound(next);
    }

    method Dispatch(ep: E, data: seq<byte>) returns (accepted: bool)
      requires Valid()
      modifies this`clients
      modifies if ep in clients then {clients[ep], clients[ep].cache} + clients[ep].held.Keys else {}
      ensures Valid() && OthersKept(ep) && Abs() == A.Apply(CLIENT_CACHE, old(Abs()), A.Data(ep, data))
      ensures accepted == (accepting && ep !in old(clients)) && (ep in clients <==> ep in old(clients) || accepted)
      ensures ep in old(clients) ==> clients[ep] == old(clients[ep])
      ensures accepted ==> clients[ep].maxCache == 10
    {
      ghost var was := Abs();
      accepted := false;
      if ep in clients {
        Forward(ep, data);
        A.StepElsewhere(CLIENT_CACHE, was, Abs(), ep, M.Arrive(data));
      } else {
        if accepting {
          Accept(ep, data);
          accepted := true;
          A.OpenedElsewhere(CLIENT_CACHE, was, Abs(), ep, data);
        }
      }
    }

    /** A read request of a session; one that has been closed is asked for nothing. */
    method Read(ep: E)
      requires Valid()
      modifies if ep in clients then {clients[ep]} else {}
      ensures Valid() && OthersKept(ep) && Abs() == A.Apply(CLIENT_CACHE, old(Abs()), A.Read(ep))
      ensures old(Consistent()) ==> Consistent()
    {
      ghost var was := Abs();
      A.InvKept(CLIENT_CACHE, was, A.Read(ep));
      if ep in clients {
        Ask(ep);
      }
      A.StepElsewhere(CLIENT_CACHE, was, Abs(), ep, M.Read);
      Sound(A.Apply(CLIENT_CACHE, was, A.Read(ep)));
    }

    method Ask(ep: E)
      requires Valid() && ep in clients
      modifies clients[ep]
      ensures Valid() && OthersKept(ep)
      ensures clients[ep].model == M.Apply(CLIENT_CACHE, old(clients[ep].model), M.Read)
    {
      var client := clients[ep];
      assert forall e :: e in clients && e != ep ==> Strangers(clients[e], client) && Strangers(client, clients[e]);
      client.Read();
      StillStrangers(client);
    }

    /** The strand runs the first of a session's tasks; `out` is what its delegate was given. */
    method RunTask(ep: E) returns (out: seq<seq<byte>>)
      requires Valid()
      modifies if ep in clients then {clients[ep], clients[ep].cache} else {}
      ensures Valid() && OthersKept(ep) && Abs() == A.Apply(CLIENT_CACHE, old(Abs()), A.Run(ep))
      ensures old(Consistent()) ==> Consistent()
      ensures if ep in clients
        then M.BytesOf(clients[ep].model.delivered) == M.BytesOf(old(clients[ep].model.delivered)) + out
        else out == []
    {
      ghost var was := Abs();
      out := [];
      if ep in clients {
        out := RunSession(ep);
      }
      A.StepElsewhere(CLIENT_CACHE, was, Abs(), ep, M.Run);
      A.InvKept(CLIENT_CACHE, was, A.Run(ep));
      Sound(A.Apply(CLIENT_CACHE, was, A.Run(ep)));
    }

    method RunSession(ep: E) returns (out: seq<seq<byte>>)
      requires Valid() && ep in clients
      modifies clients[ep], clients[ep].cache
      ensures Valid() && OthersKept(ep)
      ensures clients[ep].model == M.Apply(CLIENT_CACHE, old(clients[ep].model), M.Run)
      ensures M.BytesOf(clients[ep].model.delivered) == M.BytesOf(old(clients[ep].model.delivered)) + out
    {
      var client := clients[ep];
      assert forall e :: e in clients && e != ep ==> Strangers(clients[e], client) && Strangers(client, clients[e]);
      out := client.RunFront();
      StillStrangers(client);
    }

    /** One client having only got new buffers, it and the others still share none. */
    twostate lemma StillStrangers(client: Client)
      requires clients == old(clients) && old(Apart()) && client in clients.Values
      requires forall e :: e in clients && clients[e] != client ==> unchanged(clients[e])
      requires forall b :: b in client.held.Keys ==> b in old(client.held.Keys) || fresh(b)
      ensures Apart()
    {
    }

    /** A client made of new objects shares none with the others. */
    twostate lemma NewIsStranger(ep: E, new next: Client)
      requires old(Apart()) && ep !in old(clients) && clients == old(clients)[ep := next]
      requires fresh(next) && fresh(next.cache) && fresh(next.held.Keys)
      requires forall e :: e in old(clients) ==> unchanged(old(clients[e])) && old(clients[e].Valid())
      ensures Apart()
    {
    }

    method Forward(ep: E, data: seq<byte>)
      requires Valid() && ep in clients
      modifies clients[ep], clients[ep].cache, clients[ep].held.Keys
      ensures Valid() && OthersKept(ep)
      ensures clients[ep].model == M.Apply(CLIENT_CACHE, old(clients[ep].model), M.Arrive(data))
    {
      var client := clients[ep];
      ghost var _ := client.PushData(data);
      StillStrangers(client);
      forall e | e in clients && e != ep
        ensures clients[e].Valid()
      {
        assert old(Strangers(clients[e], client));
      }
    }

    method Accept(ep: E, data: seq<byte>)
      requires Valid() && ep !in clients
      modifies this`clients
      ensures Valid() && OthersKept(ep) && ep in clients && clients[ep].model == M.Accepted(data)
      ensures clients[ep].maxCache == 10
    {
      var next := new Client(CLIENT_CACHE, data);
      assert forall e :: e in clients ==> clients[e].Valid();
      clients := clients[ep := next];
      NewIsStranger(ep, next);
    }

    /** The client is told and forgotten; a later datagram from its endpoint begins a new session. */
    method CloseImpl(ep: E) returns (closed: bool)
      requires Valid()
      modifies this`clients, (if ep in clients then {clients[ep]} else {})`closeCalls
      ensures Valid() && OthersKept(ep) && ep !in clients && closed == (ep in old(clients))
      ensures closed ==> old(clients[ep]).closeCalls == old(clients[ep].closeCalls) + 1
      ensures Abs() == A.Apply(CLIENT_CACHE, old(Abs()), A.Close(ep))
      ensures old(Consistent()) ==> Consistent()
    {
      ghost var next := A.Apply(CLIENT_CACHE, Abs(), A.Close(ep));
      A.InvKept(CLIENT_CACHE, Abs(), A.Close(ep));
      closed := Drop(ep);
      Sound(next);
    }

    method Drop(ep: E) returns (closed: bool)
      requires Valid()
      modifies this`clients, (if ep in clients then {clients[ep]} else {})`closeCalls
      ensures Valid() && OthersKept(ep) && ep !in clients && closed == (ep in old(clients))
      ensures closed ==> old(clients[ep]).closeCalls == old(clients[ep].closeCalls) + 1
      ensures Abs() == A.Apply(CLIENT_CACHE, old(Abs()), A.Close(ep))
    {
      closed := ep in clients;
      if closed {
        Tell(ep);
        Forget(ep);
      } else {
        assert Sessions() - {ep} == Sessions();
      }
    }

    method Tell(ep: E)
      requires Valid() && ep in clients
      modifies {clients[ep]}`closeCalls
      ensures Valid() && Sessions() == old(Sessions())
      ensures clients[ep].closeCalls == old(clients[ep].closeCalls) + 1
    {
      var client := clients[ep];
      client.closeCalls := client.closeCalls + 1;
      forall e | e in clients
        ensures clients[e].Valid()
      {
        assert e != ep ==> old(Strangers(clients[e], client));
      }
    }

    method Forget(ep: E)
      requires Valid() && ep in clients
      modifies this`clients
      ensures Valid() && clients == old(clients) - {ep} && Sessions() == old(Sessions()) - {ep}
    {
      ghost var before := Sessions();
      clients := clients - {ep};
      assert Sessions() == before - {ep};
    }
  }
}
