/**
 What rt_event_recv and rt_event_send do to each event bit, rt-thread/src/ipc.c:1028-1236, said bit by bit.
 */
module EventLaws {
  import opened Queues
  import opened Threads
  import opened Ipc
  import opened Events

  /** All of the bits asked for are there, or one of them is. */
  ghost predicate There(i: Interest, bits: Bits) {
    if i.all then forall b {:trigger b in i.bits} :: b in i.bits ==> b in bits
    else exists b {:trigger b in i.bits} :: b in i.bits && b in bits
  }

  lemma SatisfiedThere(i: Interest, bits: Bits)
    ensures Satisfied(i, bits) <==> There(i, bits)
  {
    if !i.all && i.bits * bits != {} {
      var b :| b in i.bits * bits;
      assert b in i.bits;
    }
    if !i.all && There(i, bits) {
      var b :| b in i.bits && b in bits;
      assert b in i.bits * bits;
    }
  }

  /**
   rt_event_recv succeeds at once exactly if what it asks for is there.  Then it returns the bits that are set
   and asked for; RT_EVENT_FLAG_CLEAR clears the bits asked for and no others, and without it none is cleared.
   Otherwise no bit changes.
   */
  lemma ReceiveBits(k: Sched, e: Event, i: Interest, time: int, b: nat)
    ensures var r := Received(k, e, i, time);
      if i.bits != {} && There(i, e.bits) then
        && r.2.Done? && r.2.err == Ok
        && (b in r.2.got <==> b in i.bits && b in e.bits)
        && (b in r.1.bits <==> b in e.bits && !(i.clear && b in i.bits))
      else
        r.1 == e && r.2 == if i.bits == {} then Done(Failed, {}) else if time == 0 then Done(TimedOut, {}) else Blocks
  {
    SatisfiedThere(i, e.bits);
  }

  /** t, which waited in w, was woken, and bit b was among those it took away. */
  ghost predicate Took(k: Sched, k': Sched, w: int, t: int, b: nat) {
    !In(k', w, t) && At(k, t).interest.clear && b in At(k', t).interest.bits
  }

  /** Bit b is set when the sweep reaches the j-th waiter: no woken waiter before took it. */
  ghost predicate Avail(k: Sched, k': Sched, w: int, bits: Bits, q: seq<int>, j: nat, b: nat)
    requires j <= |q|
  {
    b in bits && forall i {:trigger q[i]} :: 0 <= i < j ==> !Took(k, k', w, q[i], b)
  }

  /** What becomes of the j-th waiter. */
  ghost predicate Served(k: Sched, k': Sched, w: int, bits: Bits, q: seq<int>, j: nat)
    requires j < |q|
  {
    var i, i' := At(k, q[j]).interest, At(k', q[j]).interest;
    && (!In(k', w, q[j]) <==>
          if i.all then forall b {:trigger b in i.bits} :: b in i.bits ==> Avail(k, k', w, bits, q, j, b)
          else exists b {:trigger b in i.bits} :: b in i.bits && Avail(k, k', w, bits, q, j, b))
    && (!In(k', w, q[j]) ==> forall b {:trigger b in i'.bits} :: b in i'.bits <==> b in i.bits && Avail(k, k', w, bits, q, j, b))
  }

  /** The state in which the sweep goes on after its first waiter. */
  function Rest(k: Sched, e: Event, h: int): (Sched, Event) {
    var i := At(k, h).interest;
    if Satisfied(i, e.bits) then (Resumed(With(k, h, At(k, h).(interest := Got(i, e.bits))), h), e.(bits := Left(i, e.bits))) else (k, e)
  }

  lemma RestKeeps(k: Sched, e: Event, asked: map<int, Interest>, q: seq<int>)
    requires Partial(k, e, asked, q) && NoDup(q) && q != [] && forall u {:trigger u in q} :: u in q ==> In(k, e.w, u)
    ensures var (k1, e1) := Rest(k, e, q[0]);
      && Partial(k1, e1, asked, q[1..]) && NoDup(q[1..]) && e1.w == e.w
      && (forall u {:trigger u in q[1..]} :: u in q[1..] ==> In(k1, e.w, u) && At(k1, u).interest == At(k, u).interest)
      && Swept(k, e.bits, q) == Swept(k1, e1.bits, q[1..])
  {
    var h := q[0];
    assert h in q && q == [h] + q[1..];
    TailNoDup(q);
    forall u | u in q[1..] ensures u in q && u != h {}
    if Satisfied(At(k, h).interest, e.bits) { WakeKeeps(k, e, asked, q); }
  }

  /** A thread that the sweep does not look at keeps its place and what it asked for. */
  lemma {:induction false} SweptFrame(k: Sched, e: Event, asked: map<int, Interest>, q: seq<int>, t: int)
    requires Partial(k, e, asked, q) && NoDup(q) && forall u {:trigger u in q} :: u in q ==> In(k, e.w, u)
    requires t !in q
    ensures var k' := Swept(k, e.bits, q).0; In(k', e.w, t) == In(k, e.w, t) && At(k', t).interest == At(k, t).interest
    decreases |q|
  {
    if q != [] {
      var (k1, e1) := Rest(k, e, q[0]);
      RestKeeps(k, e, asked, q);
      assert q == [q[0]] + q[1..] && q[0] in q;
      SweptFrame(k1, e1, asked, q[1..], t);
      if Satisfied(At(k, q[0]).interest, e.bits) { WakeKeeps(k, e, asked, q); }
    }
  }

  lemma SweptHead(k: Sched, e: Event, asked: map<int, Interest>, q: seq<int>)
    requires Partial(k, e, asked, q) && NoDup(q) && q != [] && forall u {:trigger u in q} :: u in q ==> In(k, e.w, u)
    ensures var i, k', h := At(k, q[0]).interest, Swept(k, e.bits, q).0, q[0];
      && (Satisfied(i, e.bits) <==> !In(k', e.w, h))
      && At(k', h).interest == if Satisfied(i, e.bits) then Got(i, e.bits) else i
  {
    var h := q[0];
    var (k1, e1) := Rest(k, e, h);
    assert h in q;
    RestKeeps(k, e, asked, q);
    TailNoDup(q);
    SweptFrame(k1, e1, asked, q[1..], h);
    if Satisfied(At(k, h).interest, e.bits) { WakeKeeps(k, e, asked, q); }
  }

  /** The first waiter: woken if what it asks for is there, with the bits it gets. */
  lemma SweptFirst(k: Sched, e: Event, asked: map<int, Interest>, q: seq<int>)
    requires Partial(k, e, asked, q) && NoDup(q) && q != [] && forall u {:trigger u in q} :: u in q ==> In(k, e.w, u)
    ensures Served(k, Swept(k, e.bits, q).0, e.w, e.bits, q, 0)
  {
    SweptHead(k, e, asked, q);
    SatisfiedThere(At(k, q[0]).interest, e.bits);
    forall b ensures Avail(k, Swept(k, e.bits, q).0, e.w, e.bits, q, 0, b) <==> b in e.bits {}
  }

  /** How the availability of bits looks from behind the first waiter. */
  lemma AvailTail(k: Sched, k1: Sched, k': Sched, w: int, bits: Bits, bits1: Bits, q: seq<int>, j: nat, b: nat)
    requires 0 < j <= |q| && (b in bits1 <==> b in bits && !Took(k, k', w, q[0], b))
    requires forall t {:trigger t in q[1..]} :: t in q[1..] ==> At(k1, t).interest == At(k, t).interest
    ensures Avail(k, k', w, bits, q, j, b) <==> Avail(k1, k', w, bits1, q[1..], j - 1, b)
  {
    var r := q[1..];
    forall i | 0 <= i < |r| ensures Took(k1, k', w, r[i], b) == Took(k, k', w, q[i+1], b) { assert r[i] in r && r[i] == q[i+1]; }
    if Avail(k, k', w, bits, q, j, b) {
      forall i | 0 <= i < j - 1 ensures !Took(k1, k', w, r[i], b) { assert !Took(k, k', w, q[i+1], b); }
      assert !Took(k, k', w, q[0], b);
    }
    if Avail(k1, k', w, bits1, r, j - 1, b) {
      forall i | 0 <= i < j ensures !Took(k, k', w, q[i], b) { if i > 0 { assert !Took(k1, k', w, r[i-1], b); } }
    }
  }

  lemma RestBits(k: Sched, e: Event, asked: map<int, Interest>, q: seq<int>, b: nat)
    requires Partial(k, e, asked, q) && NoDup(q) && q != [] && forall u {:trigger u in q} :: u in q ==> In(k, e.w, u)
    ensures b in Rest(k, e, q[0]).1.bits <==> b in e.bits && !Took(k, Swept(k, e.bits, q).0, e.w, q[0], b)
  {
    SweptHead(k, e, asked, q);
  }

  /**
   The sweep of rt_event_send: the j-th waiter is woken exactly if what it asked for is there when its turn comes,
   and it gets the bits it asked for that are there; a bit is there as long as no woken waiter before took it
   with RT_EVENT_FLAG_CLEAR, and at the end the bits there are those left.
   */
  lemma {:induction false} SweepBits(k: Sched, e: Event, asked: map<int, Interest>, q: seq<int>, j: nat, b: nat)
    requires Partial(k, e, asked, q) && NoDup(q) && forall u {:trigger u in q} :: u in q ==> In(k, e.w, u)
    ensures var r := Swept(k, e.bits, q);
      && (j < |q| ==> Served(k, r.0, e.w, e.bits, q, j))
      && (b in r.1 <==> Avail(k, r.0, e.w, e.bits, q, |q|, b))
    decreases |q|
  {
    if q != [] {
      var (k1, e1) := Rest(k, e, q[0]);
      var k' := Swept(k, e.bits, q).0;
      RestKeeps(k, e, asked, q);
      RestBits(k, e, asked, q, b);
      SweepBits(k1, e1, asked, q[1..], if j > 0 then j - 1 else 0, b);
      AvailTail(k, k1, k', e.w, e.bits, e1.bits, q, |q|, b);
      if j == 0 {
        SweptFirst(k, e, asked, q);
      } else if j < |q| {
        ServedTail(k, e, asked, q, j);
      }
    }
  }

  lemma ServedTail(k: Sched, e: Event, asked: map<int, Interest>, q: seq<int>, j: nat)
    requires Partial(k, e, asked, q) && NoDup(q) && forall u {:trigger u in q} :: u in q ==> In(k, e.w, u)
    requires 0 < j < |q|
    requires var (k1, e1) := Rest(k, e, q[0]); Served(k1, Swept(k, e.bits, q).0, e.w, e1.bits, q[1..], j - 1)
    ensures Served(k, Swept(k, e.bits, q).0, e.w, e.bits, q, j)
  {
    var (k1, e1) := Rest(k, e, q[0]);
    var k' := Swept(k, e.bits, q).0;
    RestKeeps(k, e, asked, q);
    assert q[1..][j-1] == q[j] && q[j] in q[1..];
    forall b ensures Avail(k, k', e.w, e.bits, q, j, b) <==> Avail(k1, k', e.w, e1.bits, q[1..], j - 1, b) {
      RestBits(k, e, asked, q, b);
      AvailTail(k, k1, k', e.w, e.bits, e1.bits, q, j, b);
    }
  }

  /** The same of rt_event_send: it adds the bits sent, and the sweep starts with all of them. */
  lemma SendBits(k: Sched, e: Event, asked: map<int, Interest>, bits: Bits, j: nat, b: nat)
    requires EventInv(k, e, asked) && bits != {}
    ensures var r, q := Sent(k, e, bits), Waiting(k, e.w);
      && r.2 == Ok
      && (j < |q| ==> Served(k, r.0, e.w, e.bits + bits, q, j))
      && (b in r.1.bits <==> Avail(k, r.0, e.w, e.bits + bits, q, |q|, b))
  {
    var e1, q := e.(bits := e.bits + bits), Waiting(k, e.w);
    assert WaitOk(k, e.w);
    forall t | In(k, e.w, t) ensures t in q {}
    SweepBits(k, e1, asked, q, j, b);
  }
}
