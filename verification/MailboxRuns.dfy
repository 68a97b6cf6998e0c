/**
 The runs of a mailbox, told by what its calls return: rt-thread/src/ipc.c:1441-1713.
 */
module MailboxRuns {
  import opened Threads
  import opened Mailboxes

  /** What a step stores: the value of a send that succeeds. */
  function StoredBy(s: State, step: Step): seq<int> {
    if step.Send? && Sent(s.k, s.b, step.value, step.time, step.again).2 == Done(Ok) then [step.value] else []
  }

  /** What a step hands out: the value that a receive returns, which Mailbox.Receive shows to be the oldest one. */
  function FetchedBy(s: State, step: Step): seq<int> {
    if step.Receive? && Received(s.k, s.b, step.time, step.again).2 == Done(Ok) && s.b.q != [] then [s.b.q[0]] else []
  }

  function Stored(s: State, steps: seq<Step>): seq<int>
    decreases |steps|
  {
    if steps == [] then [] else StoredBy(s, steps[0]) + Stored(Next(s, steps[0]), steps[1..])
  }

  function Fetched(s: State, steps: seq<Step>): seq<int>
    decreases |steps|
  {
    if steps == [] then [] else FetchedBy(s, steps[0]) + Fetched(Next(s, steps[0]), steps[1..])
  }

  lemma StepStores(s: State, step: Step)
    requires BoxInv(s.k, s.b) && Enabled(s, step)
    ensures FetchedBy(s, step) + Next(s, step).b.q == s.b.q + StoredBy(s, step)
    ensures Next(s, step).b.sent == s.b.sent + StoredBy(s, step) && Next(s, step).b.got == s.b.got + FetchedBy(s, step)
    ensures Next(s, step).b.size == s.b.size
  {
    var q := s.b.q;
    if q != [] { assert q == [q[0]] + q[1..]; }
  }

  /**
   In every run the values that receives return, followed by the messages still there, are the messages
   there at first followed by the values of the sends that succeeded.
   */
  lemma {:induction false} ReceivedInOrder(s: State, steps: seq<Step>)
    requires BoxInv(s.k, s.b) && Run(s, steps)
    ensures var e := After(s, steps);
      Fetched(s, steps) + e.b.q == s.b.q + Stored(s, steps) && |e.b.q| <= e.b.size == s.b.size
    decreases |steps|
  {
    if steps != [] {
      var s1, rest := Next(s, steps[0]), steps[1..];
      StepStores(s, steps[0]);
      StepKeeps(s, steps[0]);
      ReceivedInOrder(s1, rest);
      Regroup(FetchedBy(s, steps[0]), Fetched(s1, rest), After(s1, rest).b.q, s1.b.q, s.b.q, StoredBy(s, steps[0]), Stored(s1, rest));
    }
  }

  /** The histories that a mailbox carries along are these. */
  lemma {:induction false} HistoryIs(s: State, steps: seq<Step>)
    requires BoxInv(s.k, s.b) && Run(s, steps)
    ensures var e := After(s, steps);
      e.b.sent == s.b.sent + Stored(s, steps) && e.b.got == s.b.got + Fetched(s, steps)
    decreases |steps|
  {
    if steps != [] {
      var s1, rest := Next(s, steps[0]), steps[1..];
      StepStores(s, steps[0]);
      StepKeeps(s, steps[0]);
      HistoryIs(s1, rest);
      Assoc(s.b.sent, StoredBy(s, steps[0]), Stored(s1, rest));
      Assoc(s.b.got, FetchedBy(s, steps[0]), Fetched(s1, rest));
    }
  }

  lemma Assoc(a: seq<int>, b: seq<int>, c: seq<int>)
    ensures a + b + c == a + (b + c)
  {
  }

  lemma Regroup(f: seq<int>, fs: seq<int>, end: seq<int>, mid: seq<int>, start: seq<int>, p: seq<int>, ps: seq<int>)
    requires f + mid == start + p && fs + end == mid + ps
    ensures f + fs + end == start + (p + ps)
  {
    assert f + fs + end == f + (fs + end);
    assert f + (mid + ps) == (f + mid) + ps;
    assert (start + p) + ps == start + (p + ps);
  }

  /** A send succeeds at once exactly while fewer messages than fit have been stored and not fetched, a receive exactly while one has. */
  lemma Answers(s: State, steps: seq<Step>, value: int, time: int, again: bool)
    requires BoxInv(s.k, s.b) && Run(s, steps) && s.b.q == []
    ensures var e, n := After(s, steps), |Stored(s, steps)| - |Fetched(s, steps)|;
      && 0 <= n <= s.b.size && Fetched(s, steps) <= Stored(s, steps)
      && Sent(e.k, e.b, value, time, again).2 == (if n < s.b.size then Done(Ok) else if time == 0 then Full else Blocks)
      && Received(e.k, e.b, time, again).2 == (if n > 0 then Done(Ok) else if time == 0 then Done(TimedOut) else Blocks)
  {
    ReceivedInOrder(s, steps);
    assert [] + Stored(s, steps) == Stored(s, steps);
  }
}
