/**
 Message queues: rt_mq_init, rt_mq_send, rt_mq_urgent and rt_mq_recv, rt-thread/src/ipc.c:1780-2267.

 The messages lie in nodes of one pool, a word `next` followed by msgSize bytes each.  A sender takes
 a node off the free list, fills it with interrupts enabled, and links it; a receiver unlinks one,
 copies it, and frees it.  Between these regions the node is in flight.
 */
module MessageQueues {
  import opened Store
  import opened Queues
  import opened Kservice
  import opened Threads
  import opened Ipc
  import opened Scheduler

  const HEADER := 4

  // ----- singly linked lists

  function NodeOr0(s: seq<int>, i: nat): int {
    if i < |s| then s[i] else 0
  }

  ghost predicate NextOk(m: Mem, s: seq<int>, i: nat)
    requires i < |s|
  {
    Rd(m, s[i]) == NodeOr0(s, i + 1)
  }

  /** From `first` on, the next words lead through the nodes of s, and end with 0. */
  ghost predicate Chain(m: Mem, first: int, s: seq<int>) {
    first == NodeOr0(s, 0) && forall i {:trigger NextOk(m, s, i)} :: 0 <= i < |s| ==> NextOk(m, s, i)
  }

  ghost predicate SameAt(m: Mem, m': Mem, a: int) {
    Rd(m', a) == Rd(m, a)
  }

  ghost predicate SameNexts(m: Mem, m': Mem, s: seq<int>) {
    forall i {:trigger SameAt(m, m', s[i])} :: 0 <= i < |s| ==> SameAt(m, m', s[i])
  }

  lemma ChainFrame(m: Mem, m': Mem, first: int, s: seq<int>)
    requires Chain(m, first, s) && SameNexts(m, m', s)
    ensures Chain(m', first, s)
  {
    forall i | 0 <= i < |s| ensures NextOk(m', s, i) { assert NextOk(m, s, i) && SameAt(m, m', s[i]); }
  }

  lemma ChainPush(m: Mem, m': Mem, first: int, s: seq<int>, x: int)
    requires Chain(m, first, s) && SameNexts(m, m', s) && Rd(m', x) == first
    ensures Chain(m', x, [x] + s)
  {
    var r := [x] + s;
    forall i | 0 <= i < |r| ensures NextOk(m', r, i) {
      if i > 0 { assert NextOk(m, s, i - 1) && SameAt(m, m', s[i-1]); }
    }
  }

  lemma ChainPop(m: Mem, first: int, s: seq<int>)
    requires Chain(m, first, s) && s != []
    ensures first == s[0] && Chain(m, Rd(m, first), s[1..])
  {
    assert NextOk(m, s, 0);
    forall i | 0 <= i < |s| - 1 ensures NextOk(m, s[1..], i) { assert NextOk(m, s, i + 1); }
  }

  lemma ChainAppend(m: Mem, m': Mem, first: int, s: seq<int>, x: int)
    requires Chain(m, first, s) && Rd(m', x) == 0 && x != 0
    requires s != [] ==> SameNexts(m, m', s[..|s|-1]) && Rd(m', s[|s|-1]) == x
    ensures Chain(m', if s == [] then x else first, s + [x])
  {
    var r := s + [x];
    forall i | 0 <= i < |r| ensures NextOk(m', r, i) {
      if i < |s| - 1 { assert NextOk(m, s, i) && SameAt(m, m', s[..|s|-1][i]); }
    }
  }

  // ----- where the nodes are

  /** Every node of the pool is free, queued or in flight. */
  ghost predicate Parted(nodes: set<int>, qs: seq<int>, fs: seq<int>, flight: set<int>) {
    && NoDup(qs) && NoDup(fs)
    && (forall x {:trigger x in nodes} :: x in nodes <==> x in qs || x in fs || x in flight)
    && (forall x {:trigger x in qs} :: x in qs ==> x !in fs && x !in flight)
    && (forall x {:trigger x in fs} :: x in fs ==> x !in flight)
  }

  /** The nodes do not overlap. */
  ghost predicate NodesApart(nodes: set<int>, msgSize: nat) {
    0 !in nodes && forall x, y {:trigger x in nodes, y in nodes} ::
      x in nodes && y in nodes && x != y ==> x + HEADER + msgSize <= y || y + HEADER + msgSize <= x
  }

  /** The n bytes at a. */
  function Bytes(m: Mem, a: int, n: nat): (p: seq<int>)
    ensures |p| == n && forall i {:trigger p[i]} :: 0 <= i < n ==> p[i] == ByteAt(m, a, i)
  {
    seq(n, i requires 0 <= i < n => ByteAt(m, a, i))
  }

  function ByteAt(m: Mem, a: int, i: nat): int {
    Rd(m, a + i)
  }

  lemma SameRange(m: Mem, m': Mem, a: int, n: nat)
    requires forall b :: a <= b < a + n ==> Rd(m', b) == Rd(m, b)
    ensures Bytes(m', a, n) == Bytes(m, a, n)
  {
    forall i | 0 <= i < n ensures ByteAt(m', a, i) == ByteAt(m, a, i) {}
  }

  function Payload(m: Mem, x: int, n: nat): seq<int> {
    Bytes(m, x + HEADER, n)
  }

  /** Only next words of nodes were written. */
  ghost predicate OnlyNexts(m: Mem, m': Mem, nodes: set<int>) {
    forall a :: a !in nodes ==> Rd(m', a) == Rd(m, a)
  }

  lemma PayloadKept(m: Mem, m': Mem, nodes: set<int>, msgSize: nat, x: int)
    requires NodesApart(nodes, msgSize) && OnlyNexts(m, m', nodes) && x in nodes
    ensures Payload(m', x, msgSize) == Payload(m, x, msgSize)
  {
    forall b | x + HEADER <= b < x + HEADER + msgSize ensures Rd(m', b) == Rd(m, b) {
      assert b in nodes ==> b != x;
    }
    SameRange(m, m', x + HEADER, msgSize);
  }

  /** The messages of the nodes in s. */
  ghost function Messages(m: Mem, s: seq<int>, msgSize: nat): (d: seq<seq<int>>)
    ensures |d| == |s| && forall i {:trigger d[i]} :: 0 <= i < |s| ==> d[i] == Payload(m, s[i], msgSize)
  {
    seq(|s|, i requires 0 <= i < |s| => Payload(m, s[i], msgSize))
  }

  lemma MessagesKept(m: Mem, m': Mem, nodes: set<int>, msgSize: nat, s: seq<int>)
    requires NodesApart(nodes, msgSize) && OnlyNexts(m, m', nodes)
    requires forall x {:trigger x in s} :: x in s ==> x in nodes
    ensures Messages(m', s, msgSize) == Messages(m, s, msgSize)
  {
    forall i | 0 <= i < |s| ensures Payload(m', s[i], msgSize) == Payload(m, s[i], msgSize) {
      assert s[i] in s;
      PayloadKept(m, m', nodes, msgSize, s[i]);
    }
  }

  lemma PushFront(nodes: set<int>, qs: seq<int>, fs: seq<int>, flight: set<int>, x: int)
    requires Parted(nodes, qs, fs, flight) && x in flight
    ensures Parted(nodes, [x] + qs, fs, flight - {x}) && Parted(nodes, qs, [x] + fs, flight - {x})
  {
    FrontMembers(qs, x);
    FrontMembers(fs, x);
  }

  lemma FrontMembers(q: seq<int>, x: int)
    requires NoDup(q) && x !in q
    ensures NoDup([x] + q) && forall y {:trigger y in q} {:trigger y in [x] + q} :: y in [x] + q <==> y in q || y == x
  {
    var r := [x] + q;
    forall i, j | 0 <= i < j < |r| ensures Differ(r, i, j) {
      if i > 0 { assert Differ(q, i - 1, j - 1); }
    }
  }

  lemma PushBack(nodes: set<int>, qs: seq<int>, fs: seq<int>, flight: set<int>, x: int)
    requires Parted(nodes, qs, fs, flight) && x in flight
    ensures Parted(nodes, qs + [x], fs, flight - {x})
  {
    AppendMembers(qs, x);
  }

  lemma TailMembers(q: seq<int>)
    requires NoDup(q) && q != []
    ensures NoDup(q[1..]) && forall y {:trigger y in q} {:trigger y in q[1..]} :: y in q[1..] <==> y in q && y != q[0]
  {
    TailNoDup(q);
    assert q == [q[0]] + q[1..];
  }

  lemma PopQueue(nodes: set<int>, qs: seq<int>, fs: seq<int>, flight: set<int>)
    requires Parted(nodes, qs, fs, flight) && qs != []
    ensures qs[0] in nodes && qs[0] !in flight && Parted(nodes, qs[1..], fs, flight + {qs[0]})
  {
    assert qs[0] in qs;
    TailMembers(qs);
    forall x | x in qs[1..] ensures x !in fs && x !in flight + {qs[0]} { assert x in qs; }
    forall x ensures x in nodes <==> x in qs[1..] || x in fs || x in flight + {qs[0]} { assert x in qs <==> x in qs[1..] || x == qs[0]; }
  }

  lemma PopFree(nodes: set<int>, qs: seq<int>, fs: seq<int>, flight: set<int>)
    requires Parted(nodes, qs, fs, flight) && fs != []
    ensures fs[0] in nodes && fs[0] !in flight && Parted(nodes, qs, fs[1..], flight + {fs[0]})
  {
    assert fs[0] in fs;
    TailMembers(fs);
    forall x | x in fs[1..] ensures x !in flight + {fs[0]} { assert x in fs; }
    forall x | x in qs ensures x !in fs[1..] && x !in flight + {fs[0]} { assert x in fs <==> x in fs[1..] || x == fs[0]; }
    forall x ensures x in nodes <==> x in qs || x in fs[1..] || x in flight + {fs[0]} { assert x in fs <==> x in fs[1..] || x == fs[0]; }
  }

  lemma NextsKept(m: Mem, x: int, v: int, s: seq<int>)
    requires x !in s
    ensures SameNexts(m, m[x := v], s)
  {
    forall i | 0 <= i < |s| ensures SameAt(m, m[x := v], s[i]) { assert s[i] in s; }
  }

  datatype Outcome = Done(err: Err) | Blocks

  /** What a region of rt_mq_recv does to the threads when n messages are queued. */
  function Fetched(k: Sched, n: nat, w: int, prioFlag: bool, time: int, again: bool): (Sched, Outcome) {
    if n > 0 then (k, Done(Ok))
    else if time == 0 then (if again then SetErr(k, k.current, TimedOut) else k, Done(TimedOut))
    else (Blocked(SetErr(k, k.current, Ok), w, prioFlag, time > 0), Blocks)
  }

  /** The nodes of a pool of n, last to first. */
  ghost function Cells(pool: int, stride: nat, n: nat): seq<int> {
    if n == 0 then [] else [pool + (n - 1) * stride] + Cells(pool, stride, n - 1)
  }

  lemma {:induction false} CellsBounds(pool: int, stride: nat, n: nat)
    ensures forall x {:trigger x in Cells(pool, stride, n)} :: x in Cells(pool, stride, n) ==> pool <= x && x + stride <= pool + n * stride
  {
    if n > 0 {
      CellsBounds(pool, stride, n - 1);
      assert n * stride == (n - 1) * stride + stride;
      assert (n - 1) * stride >= 0;
    }
  }

  lemma {:induction false} CellsApart(pool: int, stride: nat, n: nat, x: int, y: int)
    requires stride > 0 && x in Cells(pool, stride, n) && y in Cells(pool, stride, n) && x != y
    ensures x + stride <= y || y + stride <= x
  {
    CellsBounds(pool, stride, n - 1);
    var c := pool + (n - 1) * stride;
    if x != c && y != c { CellsApart(pool, stride, n - 1, x, y); }
  }

  lemma {:induction false} CellsNoDup(pool: int, stride: nat, n: nat)
    requires stride > 0
    ensures NoDup(Cells(pool, stride, n)) && |Cells(pool, stride, n)| == n
  {
    if n > 0 {
      CellsNoDup(pool, stride, n - 1);
      CellsBounds(pool, stride, n - 1);
      FrontMembers(Cells(pool, stride, n - 1), pool + (n - 1) * stride);
    }
  }

  ghost function Elements(s: seq<int>): set<int> {
    set x | x in s
  }

  lemma NextCell(pool: int, stride: nat, n: nat)
    requires stride > 0
    ensures pool + n * stride !in Cells(pool, stride, n) && [pool + n * stride] + Cells(pool, stride, n) == Cells(pool, stride, n + 1)
  {
    CellsBounds(pool, stride, n);
  }

  lemma PoolParted(pool: int, msgSize: nat, n: nat)
    requires pool > 0
    ensures var s := Cells(pool, msgSize + HEADER, n);
      Parted(Elements(s), [], s, {}) && NodesApart(Elements(s), msgSize) && |s| == n
  {
    var s := Cells(pool, msgSize + HEADER, n);
    CellsNoDup(pool, msgSize + HEADER, n);
    CellsBounds(pool, msgSize + HEADER, n);
    forall x, y | x in Elements(s) && y in Elements(s) && x != y ensures x + HEADER + msgSize <= y || y + HEADER + msgSize <= x {
      CellsApart(pool, msgSize + HEADER, n, x, y);
    }
  }

  class MessageQueue {
    const st: Memory
    const msgSize: nat
    const w: int
    const prioFlag: bool
    var head: int
    var tail: int
    var free: int
    var entry: nat
    ghost const nodes: set<int>
    ghost var qs: seq<int>
    ghost var fs: seq<int>
    ghost var flight: set<int>

    /** rt_mq_init. */
    constructor (st: Memory, pool: int, size: nat, poolSize: nat, w: int, prioFlag: bool)
      requires pool > 0
      modifies st
      ensures Valid() && this.st == st && qs == [] && flight == {} && size <= msgSize < size + 4 && msgSize % 4 == 0
      ensures |fs| == poolSize / (msgSize + HEADER) && nodes == Elements(Cells(pool, msgSize + HEADER, |fs|))
      ensures this.w == w && this.prioFlag == prioFlag
    {
      var aligned := (size + 3) / 4 * 4;
      var max := poolSize / (aligned + HEADER);
      this.st, msgSize, this.w, this.prioFlag := st, aligned, w, prioFlag;
      head, tail, free, entry := 0, 0, 0, 0;
      nodes, qs, fs, flight := Elements(Cells(pool, aligned + HEADER, max)), [], [], {};
      new;
      var temp := 0;
      while temp < max
        invariant temp <= max && fs == Cells(pool, msgSize + HEADER, temp) && Chain(st.m, free, fs)
        invariant head == tail == entry == 0 && qs == [] && flight == {}
      {
        var node := pool + temp * (msgSize + HEADER);
        NextCell(pool, msgSize + HEADER, temp);
        NextsKept(st.m, node, free, fs);
        ChainPush(st.m, st.m[node := free], free, fs, node);
        st.Put(node, free);
        free := node;
        fs := [node] + fs;
        temp := temp + 1;
      }
      PoolParted(pool, msgSize, max);
    }

    ghost predicate Valid()
      reads this, st
    {
      && Chain(st.m, head, qs) && Chain(st.m, free, fs)
      && tail == (if qs == [] then 0 else qs[|qs|-1]) && entry == |qs|
      && Parted(nodes, qs, fs, flight) && NodesApart(nodes, msgSize)
    }

    /** The messages in the queue, first to last. */
    ghost function Deque(): seq<seq<int>>
      reads this, st
    {
      Messages(st.m, qs, msgSize)
    }

    /** The first region of rt_mq_send and rt_mq_urgent: a node off the free list, or 0 when there is none. */
    method SendBegin() returns (msg: int)
      requires Valid()
      modifies this`free, this`fs, this`flight
      ensures Valid() && Deque() == old(Deque())
      ensures old(fs) == [] ==> msg == 0 && fs == [] && flight == old(flight)
      ensures old(fs) != [] ==> msg == old(fs)[0] != 0 && fs == old(fs)[1..] && flight == old(flight) + {msg} && msg !in old(flight)
    {
      msg := free;
      if msg == 0 {
        FirstNotNull(fs, nodes);
        return;
      }
      PopFree(nodes, qs, fs, flight);
      ChainPop(st.m, free, fs);
      free := Rd(st.m, msg);
      flight := flight + {msg};
      fs := fs[1..];
    }

    /** With interrupts enabled the sender writes its node: `size` bytes from its buffer; rt_mq_send clears its link too. */
    method SendFill(msg: int, buffer: int, size: nat, urgent: bool)
      requires Valid() && msg in flight && size <= msgSize
      requires forall x {:trigger x in nodes} :: x in nodes ==> buffer + size <= x || x + HEADER + msgSize <= buffer
      modifies st
      ensures Valid() && Deque() == old(Deque()) && (!urgent ==> Rd(st.m, msg) == 0)
      ensures Bytes(st.m, msg + HEADER, size) == Bytes(old(st.m), buffer, size)
      ensures forall x {:trigger Payload(st.m, x, msgSize)} :: x in flight && x != msg ==> Payload(st.m, x, msgSize) == Payload(old(st.m), x, msgSize)
    {
      ghost var m0 := st.m;
      assert msg in nodes;
      if !urgent {
        st.Put(msg, 0);
      }
      Memcpy(st, msg + HEADER, buffer, size);
      forall x | x in nodes && x != msg
        ensures SameAt(m0, st.m, x) && Payload(st.m, x, msgSize) == Payload(m0, x, msgSize)
      {
        SameRange(m0, st.m, x + HEADER, msgSize);
      }
      OtherNodes(m0, st.m, nodes, qs, msg);
      OtherNodes(m0, st.m, nodes, fs, msg);
      ChainFrame(m0, st.m, head, qs);
      ChainFrame(m0, st.m, free, fs);
      forall i | 0 <= i < |qs| ensures Payload(st.m, qs[i], msgSize) == Payload(m0, qs[i], msgSize) { assert qs[i] in qs; }
    }

    /** rt_mq_send's second region links the node at the end, rt_mq_urgent's at the front. */
    method Link(msg: int, urgent: bool)
      requires Valid() && msg in flight && (!urgent ==> Rd(st.m, msg) == 0)
      modifies this`head, this`tail, this`entry, this`qs, this`flight, st
      ensures Valid() && flight == old(flight) - {msg} && OnlyNexts(old(st.m), st.m, nodes)
      ensures var p := Payload(old(st.m), msg, msgSize); Deque() == if urgent then [p] + old(Deque()) else old(Deque()) + [p]
    {
      ghost var m0, d, q0 := st.m, Deque(), qs;
      assert msg in nodes && msg != 0;
      if urgent {
        PushFront(nodes, qs, fs, flight, msg);
        NextsKept(m0, msg, head, qs);
        NextsKept(m0, msg, head, fs);
        ChainPush(m0, m0[msg := head], head, qs, msg);
        ChainFrame(m0, m0[msg := head], free, fs);
        st.Put(msg, head);
        head := msg;
        if tail == 0 {
          tail := msg;
        }
        qs := [msg] + qs;
      } else {
        PushBack(nodes, qs, fs, flight, msg);
        if tail != 0 {
          assert qs[|qs|-1] in qs;
          LastKept(m0, qs, fs, msg);
          ChainAppend(m0, m0[tail := msg], head, qs, msg);
          ChainFrame(m0, m0[tail := msg], free, fs);
          st.Put(tail, msg);
        } else {
          assert qs == [] by { LastNotNull(qs, nodes); }
          ChainAppend(m0, m0, head, qs, msg);
        }
        tail := msg;
        if head == 0 {
          head := msg;
        }
        qs := qs + [msg];
      }
      entry := entry + 1;
      flight := flight - {msg};
      MessagesKept(m0, st.m, nodes, msgSize, q0);
      PayloadKept(m0, st.m, nodes, msgSize, msg);
      assert Deque() == if urgent then [Payload(m0, msg, msgSize)] + d else d + [Payload(m0, msg, msgSize)];
    }

    /** The region of rt_mq_recv that takes the first message off the queue. */
    method Unlink() returns (msg: int)
      requires Valid() && entry != 0
      modifies this`head, this`tail, this`entry, this`qs, this`flight
      ensures Valid() && msg !in old(flight) && flight == old(flight) + {msg}
      ensures Deque() == old(Deque())[1..] && Payload(st.m, msg, msgSize) == old(Deque())[0]
    {
      PopQueue(nodes, qs, fs, flight);
      ChainPop(st.m, head, qs);
      ghost var q0 := qs;
      msg := head;
      head := Rd(st.m, msg);
      if tail == msg {
        OnlyOne(qs);
        tail := 0;
      }
      entry := entry - 1;
      flight := flight + {msg};
      qs := qs[1..];
      assert Deque() == Messages(st.m, q0, msgSize)[1..];
    }

    /** The whole last region of rt_mq_send and rt_mq_urgent, and the call of rt_schedule after it. */
    method Deliver(s: Scheduler, msg: int, urgent: bool)
      requires s.Inv() && Valid() && msg in flight && (!urgent ==> Rd(st.m, msg) == 0)
      modifies this`head, this`tail, this`entry, this`qs, this`flight, st, s
      ensures s.Inv() && Valid() && flight == old(flight) - {msg}
      ensures var p := Payload(old(st.m), msg, msgSize); Deque() == if urgent then [p] + old(Deque()) else old(Deque()) + [p]
      ensures s.Abs() == var k := old(s.Abs()); if Waiting(k, w) == [] then k else Scheduled(Resumed(k, Waiting(k, w)[0]))
    {
      Link(msg, urgent);
      if w in s.waits && s.waits[w] != [] {
        s.ResumeFirst(w);
        s.Schedule();
      }
    }

    /** One region of rt_mq_recv: it takes the first message off the queue, gives up, or waits. */
    method Fetch(s: Scheduler, time: int, again: bool) returns (r: Outcome, msg: int)
      requires s.Inv() && Valid() && (entry == 0 && time != 0 ==> s.Tc(s.current).stat == Running)
      modifies this`head, this`tail, this`entry, this`qs, this`flight, s
      ensures s.Inv() && Valid() && (s.Abs(), r) == Fetched(old(s.Abs()), old(entry), w, prioFlag, time, again)
      ensures r == Done(Ok) ==> msg !in old(flight) && flight == old(flight) + {msg}
      ensures r == Done(Ok) ==> Deque() == old(Deque())[1..] && Payload(st.m, msg, msgSize) == old(Deque())[0]
      ensures r != Done(Ok) ==> Deque() == old(Deque()) && flight == old(flight)
    {
      msg := 0;
      if entry == 0 {
        if time == 0 {
          if again {
            s.SetError(s.current, TimedOut);
          }
          return Done(TimedOut), 0;
        }
        s.SetError(s.current, Ok);
        s.Block(w, prioFlag, time > 0);
        return Blocks, 0;
      }
      msg := Unlink();
      r := Done(Ok);
    }

    /** With interrupts enabled the receiver copies the message to its buffer. */
    method RecvCopy(msg: int, buffer: int, size: nat)
      requires Valid() && msg in flight
      requires forall x {:trigger x in nodes} :: x in nodes ==> buffer + size <= x || x + HEADER + msgSize <= buffer
      modifies st
      ensures Valid() && Deque() == old(Deque())
      ensures var n := if size > msgSize then msgSize else size;
        Bytes(st.m, buffer, n) == Payload(old(st.m), msg, msgSize)[..n]
      ensures forall x {:trigger Payload(st.m, x, msgSize)} :: x in flight ==> Payload(st.m, x, msgSize) == Payload(old(st.m), x, msgSize)
    {
      ghost var m0 := st.m;
      assert msg in nodes;
      Memcpy(st, buffer, msg + HEADER, if size > msgSize then msgSize else size);
      forall x | x in nodes
        ensures SameAt(m0, st.m, x) && Payload(st.m, x, msgSize) == Payload(m0, x, msgSize)
      {
        SameRange(m0, st.m, x + HEADER, msgSize);
      }
      forall i | 0 <= i < |qs| ensures SameAt(m0, st.m, qs[i]) && Payload(st.m, qs[i], msgSize) == Payload(m0, qs[i], msgSize) { assert qs[i] in qs; }
      forall i | 0 <= i < |fs| ensures SameAt(m0, st.m, fs[i]) { assert fs[i] in fs; }
      ChainFrame(m0, st.m, head, qs);
      ChainFrame(m0, st.m, free, fs);
    }

    /** The last region of rt_mq_recv: the node back on the free list. */
    method RecvFree(msg: int)
      requires Valid() && msg in flight
      modifies this`free, this`fs, this`flight, st
      ensures Valid() && flight == old(flight) - {msg} && fs == [msg] + old(fs)
      ensures Deque() == old(Deque()) && OnlyNexts(old(st.m), st.m, nodes)
    {
      ghost var m0 := st.m;
      assert msg in nodes && msg != 0;
      PushFront(nodes, qs, fs, flight, msg);
      NextsKept(m0, msg, free, qs);
      NextsKept(m0, msg, free, fs);
      ChainPush(m0, m0[msg := free], free, fs, msg);
      ChainFrame(m0, m0[msg := free], head, qs);
      st.Put(msg, free);
      free := msg;
      fs := [msg] + fs;
      flight := flight - {msg};
      MessagesKept(m0, st.m, nodes, msgSize, qs);
    }
  }

  lemma OtherNodes(m: Mem, m': Mem, nodes: set<int>, s: seq<int>, msg: int)
    requires forall x {:trigger SameAt(m, m', x)} :: x in nodes && x != msg ==> SameAt(m, m', x)
    requires msg !in s && forall x {:trigger x in s} :: x in s ==> x in nodes
    ensures SameNexts(m, m', s)
  {
    forall i | 0 <= i < |s| ensures SameAt(m, m', s[i]) { assert s[i] in s; }
  }

  lemma LastNotNull(qs: seq<int>, nodes: set<int>)
    requires 0 !in nodes && forall x {:trigger x in qs} :: x in qs ==> x in nodes
    ensures qs != [] ==> qs[|qs|-1] != 0
  {
    if qs != [] { assert qs[|qs|-1] in qs; }
  }

  lemma FirstNotNull(fs: seq<int>, nodes: set<int>)
    requires 0 !in nodes && forall x {:trigger x in fs} :: x in fs ==> x in nodes
    ensures fs != [] ==> fs[0] != 0
  {
    if fs != [] { assert fs[0] in fs; }
  }

  /** Writing the last node's next word changes no other node's. */
  lemma LastKept(m: Mem, qs: seq<int>, fs: seq<int>, v: int)
    requires qs != [] && NoDup(qs) && forall x {:trigger x in qs} :: x in qs ==> x !in fs
    ensures var l := qs[|qs|-1]; SameNexts(m, m[l := v], qs[..|qs|-1]) && SameNexts(m, m[l := v], fs)
  {
    var l := qs[|qs|-1];
    assert l in qs;
    NextsKept(m, l, v, fs);
    var front := qs[..|qs|-1];
    forall i | 0 <= i < |front| ensures SameAt(m, m[l := v], front[i]) { assert Differ(qs, i, |qs| - 1); }
  }

  /** The first node is the last only if there is no other. */
  lemma OnlyOne(qs: seq<int>)
    requires NoDup(qs) && qs != []
    ensures qs[0] == qs[|qs|-1] ==> |qs| == 1
  {
    if |qs| > 1 { assert Differ(qs, 0, |qs| - 1); }
  }

  // ----- whole runs

  /** The threads' side of a message queue: d are the queued messages, linked and fetched all that ever were. */
  datatype State = State(k: Sched, d: seq<int>, prioFlag: bool, recv: Side, linked: multiset<int>, fetched: multiset<int>)

  /** No message is lost or doubled, and no wakeup is lost: while a receiver sleeps, every queued message is matched by a woken receiver that has yet to look. */
  ghost predicate QueueInv(s: State) {
    s.linked == s.fetched + multiset(s.d) && Served(s.k, s.recv, |s.d|)
  }

  datatype Step = Deliver(msg: int, urgent: bool) | Fetch(time: int, again: bool) | Return | Other(next: Sched)

  ghost predicate Enabled(s: State, step: Step) {
    match step
    case Deliver(_, _) => true
    case Fetch(time, again) =>
      if again then s.k.current in s.recv.woken && At(s.k, s.k.current).stat == Running
      else s.d == [] && time != 0 ==> s.k.current !in s.recv.ts && At(s.k, s.k.current).stat == Running
    case Return => s.k.current in s.recv.ts && At(s.k, s.k.current).stat == Running && At(s.k, s.k.current).err != Ok
    case Other(next) => Valid(next) && Rely(s.k, next, s.recv.w, s.recv.ts)
  }

  function Next(s: State, step: Step): State {
    match step
    case Deliver(m, urgent) =>
      var g := Signalled(s.k, s.recv);
      s.(k := g.0, recv := g.1, d := if urgent then [m] + s.d else s.d + [m], linked := s.linked + multiset{m})
    case Fetch(time, again) =>
      var k := Fetched(s.k, |s.d|, s.recv.w, s.prioFlag, time, again).0;
      if s.d != [] then
        s.(k := k, d := s.d[1..], fetched := s.fetched + multiset{s.d[0]}, recv := if again then Leave(s.recv, s.k.current) else s.recv)
      else if time == 0 then s.(k := k, recv := if again then Leave(s.recv, s.k.current) else s.recv)
      else s.(k := k, recv := Join(s.recv, s.k.current))
    case Return => s.(recv := Leave(s.recv, s.k.current))
    case Other(next) => s.(k := next)
  }

  lemma FetchKeeps(s: State, time: int, again: bool)
    requires QueueInv(s) && Enabled(s, Fetch(time, again))
    ensures QueueInv(Next(s, Fetch(time, again)))
  {
    var t := s.k.current;
    if s.d != [] {
      assert s.d == [s.d[0]] + s.d[1..];
      if again { ServedLeave(s.k, s.recv, |s.d|, t); }
    } else if time == 0 {
      if again {
        ServedLeave(s.k, s.recv, 0, t);
        SideErr(s.k, Leave(s.recv, t), t, TimedOut);
      }
    } else {
      SideBlock(s.k, s.recv, s.prioFlag, time > 0);
    }
  }

  ghost predicate Run(s: State, steps: seq<Step>)
    decreases |steps|
  {
    steps == [] || (Enabled(s, steps[0]) && Run(Next(s, steps[0]), steps[1..]))
  }

  function After(s: State, steps: seq<Step>): State
    decreases |steps|
  {
    if steps == [] then s else After(Next(s, steps[0]), steps[1..])
  }

  lemma {:induction false} NoLostWakeup(s: State, steps: seq<Step>)
    requires QueueInv(s) && Run(s, steps)
    ensures var e := After(s, steps);
      QueueInv(e) && e.linked == e.fetched + multiset(e.d) && (Waiting(e.k, e.recv.w) != [] ==> |e.d| <= |e.recv.woken|)
    decreases |steps|
  {
    if steps != [] {
      StepKeeps(s, steps[0]);
      NoLostWakeup(Next(s, steps[0]), steps[1..]);
    }
  }

  // ----- the same, from what the calls do

  /** What a step queues, and what it hands out. */
  function QueuedBy(step: Step): seq<int> {
    if step.Deliver? then [step.msg] else []
  }

  function FetchedBy(s: State, step: Step): seq<int> {
    if step.Fetch? && Fetched(s.k, |s.d|, s.recv.w, s.prioFlag, step.time, step.again).1 == Done(Ok) && s.d != [] then [s.d[0]] else []
  }

  function Queued(steps: seq<Step>): seq<int> {
    if steps == [] then [] else QueuedBy(steps[0]) + Queued(steps[1..])
  }

  function HandedOut(s: State, steps: seq<Step>): seq<int>
    decreases |steps|
  {
    if steps == [] then [] else FetchedBy(s, steps[0]) + HandedOut(Next(s, steps[0]), steps[1..])
  }

  ghost predicate Urgent(step: Step) {
    step.Deliver? && step.urgent
  }

  lemma StepQueues(s: State, step: Step)
    requires QueueInv(s) && Enabled(s, step)
    ensures !Urgent(step) ==> FetchedBy(s, step) + Next(s, step).d == s.d + QueuedBy(step)
    ensures Urgent(step) ==> FetchedBy(s, step) == [] && Next(s, step).d == QueuedBy(step) + s.d
  {
    if s.d != [] { assert s.d == [s.d[0]] + s.d[1..]; }
  }

  lemma SameParts(a: seq<int>, b: seq<int>, c: seq<int>, d: seq<int>)
    requires a + b == c + d || (a == [] && b == d + c)
    ensures multiset(a) + multiset(b) == multiset(c) + multiset(d)
  {
    assert multiset(a + b) == multiset(a) + multiset(b);
    assert multiset(c + d) == multiset(c) + multiset(d);
    assert multiset(d + c) == multiset(d) + multiset(c);
  }

  lemma StepMultiset(s: State, step: Step)
    requires QueueInv(s) && Enabled(s, step)
    ensures multiset(FetchedBy(s, step)) + multiset(Next(s, step).d) == multiset(s.d) + multiset(QueuedBy(step))
  {
    StepQueues(s, step);
    SameParts(FetchedBy(s, step), Next(s, step).d, s.d, QueuedBy(step));
  }

  lemma StepKeeps(s: State, step: Step)
    requires QueueInv(s) && Enabled(s, step)
    ensures QueueInv(Next(s, step))
  {
    match step
    case Deliver(m, urgent) => ServedSignal(s.k, s.recv, |s.d|);
    case Fetch(time, again) => FetchKeeps(s, time, again);
    case Return =>
      SideLeave(s.k, s.recv, s.k.current);
      ServedReturn(s.k, s.recv, |s.d|, s.k.current);
    case Other(next) => ServedRely(s.k, next, s.recv, |s.d|);
  }

  lemma Regroup(f: multiset<int>, fs: multiset<int>, end: multiset<int>, mid: multiset<int>, start: multiset<int>, p: multiset<int>, ps: multiset<int>)
    requires f + mid == start + p && fs + end == mid + ps
    ensures f + fs + end == start + (p + ps)
  {
    assert f + fs + end == f + (fs + end);
    assert f + (mid + ps) == (f + mid) + ps;
  }

  lemma Concat(a: seq<int>, b: seq<int>)
    ensures multiset(a + b) == multiset(a) + multiset(b)
  {
  }

  /** In every run the messages fetched and those still queued are those queued at first and those sent, each as often. */
  lemma {:induction false} FetchedOnce(s: State, steps: seq<Step>)
    requires QueueInv(s) && Run(s, steps)
    ensures multiset(HandedOut(s, steps)) + multiset(After(s, steps).d) == multiset(s.d) + multiset(Queued(steps))
    decreases |steps|
  {
    if steps != [] {
      var s1, rest := Next(s, steps[0]), steps[1..];
      StepMultiset(s, steps[0]);
      StepKeeps(s, steps[0]);
      FetchedOnce(s1, rest);
      Concat(FetchedBy(s, steps[0]), HandedOut(s1, rest));
      Concat(QueuedBy(steps[0]), Queued(rest));
      Regroup(multiset(FetchedBy(s, steps[0])), multiset(HandedOut(s1, rest)), multiset(After(s1, rest).d), multiset(s1.d),
              multiset(s.d), multiset(QueuedBy(steps[0])), multiset(Queued(rest)));
    }
  }

  lemma RegroupSeq(f: seq<int>, fs: seq<int>, end: seq<int>, mid: seq<int>, start: seq<int>, p: seq<int>, ps: seq<int>)
    requires f + mid == start + p && fs + end == mid + ps
    ensures f + fs + end == start + (p + ps)
  {
    assert f + fs + end == f + (fs + end);
    assert f + (mid + ps) == (f + mid) + ps;
    assert (start + p) + ps == start + (p + ps);
  }

  /** In every run without urgent messages they come out in the order in which they went in. */
  lemma {:induction false} FetchedInOrder(s: State, steps: seq<Step>)
    requires QueueInv(s) && Run(s, steps) && forall i {:trigger steps[i]} :: 0 <= i < |steps| ==> !Urgent(steps[i])
    ensures HandedOut(s, steps) + After(s, steps).d == s.d + Queued(steps)
    decreases |steps|
  {
    if steps != [] {
      var s1, rest := Next(s, steps[0]), steps[1..];
      StepQueues(s, steps[0]);
      StepKeeps(s, steps[0]);
      FetchedInOrder(s1, rest);
      RegroupSeq(FetchedBy(s, steps[0]), HandedOut(s1, rest), After(s1, rest).d, s1.d, s.d, QueuedBy(steps[0]), Queued(rest));
    }
  }

  /** An urgent message is the next to be fetched. */
  lemma UrgentNext(s: State, msg: int, time: int, again: bool)
    requires QueueInv(s)
    ensures HandedOut(s, [Deliver(msg, true), Fetch(time, again)]) == [msg]
  {
    var steps := [Deliver(msg, true), Fetch(time, again)];
    var s1 := Next(s, steps[0]);
    StepQueues(s, steps[0]);
    assert steps[1..] == [Fetch(time, again)] && steps[1..][1..] == [];
    assert HandedOut(s1, steps[1..]) == FetchedBy(s1, Fetch(time, again)) + HandedOut(Next(s1, steps[1]), []);
  }

  /** What the steps of a message queue are to another list. */
  lemma StepRely(s: State, step: Step, w: int, ts: set<int>)
    requires QueueInv(s) && Enabled(s, step) && !step.Other? && w != s.recv.w && Inside(s.k, w, ts)
    requires step.Fetch? && s.d == [] && (step.time != 0 || step.again) ==> s.k.current !in ts
    ensures Rely(s.k, Next(s, step).k, w, ts)
  {
    var k := s.k;
    RelyRefl(k, w, ts);
    match step
    case Deliver(_, _) => if Waiting(k, s.recv.w) != [] { FirstRely(k, s.recv.w, w, ts); }
    case Fetch(time, again) =>
      if s.d == [] {
        if time != 0 {
          WaitRely(k, s.recv.w, s.prioFlag, time > 0, w, ts);
        } else if again {
          WithRely(k, k.current, At(k, k.current).(err := TimedOut), w, ts);
        }
      }
    case Return =>
  }
}
