/**
 The kernel's activations, message queues and synchronous calls as a transition system:
 one state, the steps of `kernel/src/sched.c`, `msg.c`, `ccall.c` and `act.c` as functions, and the
 invariant that every step keeps.  A step that ends in `kernel_panic`, `kernel_freeze` or a failed
 `kernel_assert`, none of which returns, gives `Halted`.
 */
module KernelModel {
  import opened ActiveQueue

  const MAX_ACTIVATIONS: nat := 32
  const MAX_MSG: nat := 16
  const LINES: nat := 7
  const CALL_NUMBERS: nat := 0x1_0000_0000

  datatype Status = Alive | Revoked | Terminated
  datatype Sched = Waiting | Schedulable | Runnable | SyncBlock | Ended

  /** A synchronous token: the kernel's sealed capability with the caller and the call number in its offset. */
  datatype Token = NoToken | Token(caller: nat, unique: nat)

  /** The message arguments among the registers. */
  datatype Args = Args(a0: int, a1: int, a2: int, v0: int, c3: int, c4: int, c5: int)
  datatype Frame = Frame(args: Args, v1: int, idc: nat, c1: Token)
  datatype Msg = Msg(args: Args, idc: nat, c1: Token)
  datatype Act = Act(status: Status, sched: Sched, expected: nat)

  // ---------- message queues ----------

  datatype Queue = Queue(start: nat, end: nat, msg: seq<Msg>)

  /** `safe`: the mask is 15. */
  function Safe(n: nat): (m: nat)
    ensures m < MAX_MSG && (n < MAX_MSG ==> m == n) && (n == MAX_MSG ==> m == 0)
  {
    n % MAX_MSG
  }

  predicate Full(q: Queue) {
    Safe(q.end + 1) == q.start
  }

  predicate Empty(q: Queue) {
    q.start == q.end
  }

  ghost predicate QueueShape(q: Queue) {
    q.start < MAX_MSG && q.end < MAX_MSG && |q.msg| == MAX_MSG
  }

  /** The messages in a queue, oldest first. */
  ghost function Pending(q: Queue): (s: seq<Msg>)
    requires QueueShape(q)
    ensures |s| == if q.start <= q.end then q.end - q.start else q.end + MAX_MSG - q.start
  {
    if q.start <= q.end then q.msg[q.start..q.end] else q.msg[q.start..] + q.msg[..q.end]
  }

  function Put(q: Queue, m: Msg): Queue
    requires q.end < |q.msg|
  {
    Queue(q.start, Safe(q.end + 1), q.msg[q.end := m])
  }

  function Get(q: Queue): Queue {
    Queue(Safe(q.start + 1), q.end, q.msg)
  }

  /** At most fifteen messages are pending, and only a full queue refuses one. */
  lemma QueueBounds(q: Queue)
    requires QueueShape(q)
    ensures |Pending(q)| <= MAX_MSG - 1 && (Full(q) <==> |Pending(q)| == MAX_MSG - 1) && (Empty(q) <==> Pending(q) == [])
  {
    hide Safe;
  }

  lemma PutAppends(q: Queue, m: Msg)
    requires QueueShape(q) && !Full(q)
    ensures QueueShape(Put(q, m)) && Pending(Put(q, m)) == Pending(q) + [m]
  {
    hide Safe;
    var p := Put(q, m);
    if q.start <= q.end {
      assert p.msg[q.start..q.end] == q.msg[q.start..q.end];
      assert q.end + 1 < MAX_MSG || p.msg[q.start..] == p.msg[q.start..q.end] + [m];
    } else {
      assert p.msg[q.start..] == q.msg[q.start..] && p.msg[..q.end + 1] == q.msg[..q.end] + [m];
    }
  }

  lemma GetTakes(q: Queue)
    requires QueueShape(q) && !Empty(q)
    ensures QueueShape(Get(q)) && Pending(q) == [q.msg[q.start]] + Pending(Get(q))
  {
    hide Safe, Pending;
    PendingIs(q);
    PendingIs(Get(q));
    if q.start < q.end {
      TakeHead(q.msg, q.start, q.end, []);
    } else {
      TakeHead(q.msg, q.start, MAX_MSG, q.msg[..q.end]);
    }
  }

  /** The pending messages: one stretch, or the end of the buffer and then its beginning. */
  lemma PendingIs(q: Queue)
    requires QueueShape(q)
    ensures q.start <= q.end ==> Pending(q) == q.msg[q.start..q.end] + []
    ensures q.start > q.end ==> Pending(q) == q.msg[q.start..MAX_MSG] + q.msg[..q.end]
    ensures q.start == 0 ==> Pending(q) == q.msg[MAX_MSG..MAX_MSG] + q.msg[..q.end]
  {
  }

  lemma TakeHead(s: seq<Msg>, i: nat, j: nat, rest: seq<Msg>)
    requires i < j <= |s|
    ensures s[i..j] + rest == [s[i]] + (s[i + 1..j] + rest)
  {
  }

  // ---------- the state ----------

  /**
   `pushed` and `popped` are the histories of all queues, `issued` maps the number of every
   synchronous call to its caller and `answered` holds the numbers of those that have been answered.
   */
  datatype State = State(
    acts: seq<Act>, queues: seq<Queue>, frames: seq<Frame>,
    aq: seq<nat>, sq: seq<nat>, idx: nat, end: nat,
    curr: nat, next: nat, unique: nat,
    pushed: seq<seq<Msg>>, popped: seq<seq<Msg>>, issued: map<nat, nat>, answered: set<nat>)

  predicate IsActive(s: Sched) {
    s == Runnable || s == Schedulable
  }

  ghost predicate Shape(s: State) {
    && |s.acts| == |s.queues| == |s.frames| == |s.aq| == |s.sq| == |s.pushed| == |s.popped| == MAX_ACTIVATIONS
    && s.curr < MAX_ACTIVATIONS && s.next <= MAX_ACTIVATIONS
  }

  /** The active prefix holds exactly the activations that are runnable or schedulable; number 0 never is. */
  ghost predicate ActiveOk(s: State)
    requires Shape(s)
  {
    && QueueOk(s.aq, s.sq, s.end) && !IsActive(s.acts[0].sched)
    && forall a :: 0 <= a < MAX_ACTIVATIONS ==> (InPrefix(s.aq, s.sq, s.end, a) <==> IsActive(s.acts[a].sched))
  }

  /** Who waits has no message, who is schedulable has one; no message is lost, doubled or out of order. */
  ghost predicate MessagesOk(s: State)
    requires Shape(s)
  {
    forall a :: 0 <= a < MAX_ACTIVATIONS ==> MessagesOkFor(s.acts[a], s.queues[a], s.pushed[a], s.popped[a])
  }

  ghost predicate MessagesOkFor(a: Act, q: Queue, pushed: seq<Msg>, popped: seq<Msg>) {
    && QueueShape(q)
    && (a.sched == Waiting ==> Empty(q)) && (a.sched == Schedulable ==> !Empty(q))
    && pushed == popped + Pending(q)
  }

  /** The latest call of `a` is open. */
  ghost predicate LatestOpen(s: State, a: nat)
    requires a < |s.acts|
  {
    s.acts[a].expected in s.issued && s.issued[s.acts[a].expected] == a && s.acts[a].expected !in s.answered
  }

  /**
   Calls have been numbered from 1 on, and every activation expects the answer to its latest one;
   who is blocked waits for a call of its own that is not answered yet.
   */
  ghost predicate CallsOk(s: State)
    requires Shape(s)
  {
    && (forall u :: u in s.issued ==> 0 < u <= s.unique && s.issued[u] < MAX_ACTIVATIONS && u <= s.acts[s.issued[u]].expected)
    && (forall u :: u in s.answered ==> u in s.issued)
    && forall a :: 0 <= a < MAX_ACTIVATIONS && s.acts[a].sched == SyncBlock ==> LatestOpen(s, a)
  }

  /** The kernel's own activation is dead; numbers not handed out yet are idle. */
  ghost predicate NumbersOk(s: State)
    requires Shape(s)
  {
    && s.acts[0].status == Terminated && s.acts[0].sched == Ended && 0 < s.next
    && forall a :: s.next <= a < MAX_ACTIVATIONS ==> s.acts[a].sched == Waiting
  }

  ghost predicate Inv(s: State) {
    Shape(s) && ActiveOk(s) && MessagesOk(s) && CallsOk(s) && NumbersOk(s)
  }

  /** Between traps the current activation is runnable. */
  ghost predicate Running(s: State) {
    Inv(s) && s.acts[s.curr].sched == Runnable
  }

  datatype Outcome = Halted | Goes(s: State)

  // ---------- scheduling ----------

  /** `sched_d2a`. */
  function D2A(s: State, a: nat, to: Sched): State
    requires a < |s.aq| && s.end < |s.sq| && a < |s.acts|
  {
    var (aq, sq, end) := QAdd(s.aq, s.sq, s.end, a);
    s.(aq := aq, sq := sq, end := end, acts := s.acts[a := s.acts[a].(sched := to)])
  }

  ghost predicate CanDel(s: State, a: nat) {
    a < |s.aq| && s.aq[a] < |s.sq| && 0 < s.end <= |s.sq| && s.sq[s.end - 1] < |s.aq| && a < |s.acts|
  }

  /** `sched_a2d`. */
  function A2D(s: State, a: nat, to: Sched): State
    requires CanDel(s, a)
  {
    var (aq, sq, end) := QDel(s.aq, s.sq, s.end, a);
    s.(aq := aq, sq := sq, end := end, acts := s.acts[a := s.acts[a].(sched := to)])
  }

  /** `sched_schedule`: the oldest message goes into the registers of a schedulable activation. */
  function Schedule(s: State, a: nat): State
    requires a < |s.acts| && a < |s.queues| && a < |s.frames| && a < |s.popped|
    requires s.queues[a].start < |s.queues[a].msg|
  {
    var m := s.queues[a].msg[s.queues[a].start];
    s.(queues := s.queues[a := Get(s.queues[a])],
       frames := s.frames[a := Frame(m.args, s.frames[a].v1, m.idc, m.c1)],
       popped := s.popped[a := s.popped[a] + [m]],
       acts := s.acts[a := s.acts[a].(sched := Runnable)])
  }

  /** Switching to an active activation. */
  function SwitchTo(s: State, a: nat): State
    requires Inv(s) && a < MAX_ACTIVATIONS
  {
    if s.acts[a].sched == Schedulable then Schedule(s, a).(curr := a) else s.(curr := a)
  }

  function PickIdx(s: State): nat
    requires s.end > 0
  {
    NextIdx(s.idx, s.end)
  }

  /** `sched_reschedule`: the hint if it is active, else the next one in turn, if there is any. */
  function Reschedule(s: State, hint: nat): (o: Outcome)
    requires Inv(s) && hint < MAX_ACTIVATIONS
  {
    if hint != 0 && IsActive(s.acts[hint].sched) then Goes(SwitchTo(s, hint))
    else if s.end == 0 then Halted
    else Goes(SwitchTo(s.(idx := PickIdx(s)), s.sq[PickIdx(s)]))
  }

  /** Messages do not care who else is scheduled how. */
  lemma MessagesStay(s: State, t: State, a: nat)
    requires Shape(s) && MessagesOk(s) && Shape(t) && a < MAX_ACTIVATIONS
    requires t.queues == s.queues && t.pushed == s.pushed && t.popped == s.popped && t.acts == s.acts[a := t.acts[a]]
    requires (t.acts[a].sched == Waiting ==> Empty(s.queues[a])) && (t.acts[a].sched == Schedulable ==> !Empty(s.queues[a]))
    ensures MessagesOk(t)
  {
    forall b | 0 <= b < MAX_ACTIVATIONS ensures MessagesOkFor(t.acts[b], t.queues[b], t.pushed[b], t.popped[b]) {
      assert MessagesOkFor(s.acts[b], s.queues[b], s.pushed[b], s.popped[b]);
    }
  }

  /** Nor do open calls care about anybody but their caller. */
  lemma CallsStay(s: State, t: State, a: nat)
    requires Shape(s) && CallsOk(s) && Shape(t) && a < MAX_ACTIVATIONS
    requires t.issued == s.issued && t.answered == s.answered && t.unique == s.unique
    requires t.acts == s.acts[a := t.acts[a]] && t.acts[a].expected == s.acts[a].expected
    requires t.acts[a].sched == SyncBlock ==> s.acts[a].sched == SyncBlock || LatestOpen(s, a)
    ensures CallsOk(t)
  {
    assert forall b :: 0 <= b < MAX_ACTIVATIONS ==> t.acts[b].expected == s.acts[b].expected;
  }

  lemma D2AKeeps(s: State, a: nat, to: Sched)
    requires Inv(s) && 0 < a < s.next && !IsActive(s.acts[a].sched) && IsActive(to)
    requires to == Schedulable ==> !Empty(s.queues[a])
    ensures s.end < MAX_ACTIVATIONS && Inv(D2A(s, a, to))
  {
    RoomLeft(s.aq, s.sq, s.end, a);
    AddKeeps(s.aq, s.sq, s.end, a);
    MessagesStay(s, D2A(s, a, to), a);
    hide MessagesOk;
  }

  lemma A2DKeeps(s: State, a: nat, to: Sched)
    requires Inv(s) && a < MAX_ACTIVATIONS && IsActive(s.acts[a].sched) && !IsActive(to)
    requires to == Waiting ==> Empty(s.queues[a])
    requires to == SyncBlock ==> LatestOpen(s, a)
    ensures CanDel(s, a) && Inv(A2D(s, a, to))
  {
    DelActive(s, a, to);
    hide ActiveOk, MessagesOk, CallsOk, QDel;
    MessagesStay(s, A2D(s, a, to), a);
    CallsStay(s, A2D(s, a, to), a);
  }

  lemma DelActive(s: State, a: nat, to: Sched)
    requires Inv(s) && a < MAX_ACTIVATIONS && IsActive(s.acts[a].sched) && !IsActive(to)
    ensures CanDel(s, a) && Shape(A2D(s, a, to)) && ActiveOk(A2D(s, a, to))
  {
    hide MessagesOk, CallsOk, NumbersOk, QueueOk, InPrefix, QDel;
    ActiveCanDel(s, a);
    DelKeeps(s.aq, s.sq, s.end, a);
  }

  lemma ActiveCanDel(s: State, a: nat)
    requires Inv(s) && a < MAX_ACTIVATIONS && IsActive(s.acts[a].sched)
    ensures CanDel(s, a) && QueueOk(s.aq, s.sq, s.end) && InPrefix(s.aq, s.sq, s.end, a)
  {
    assert InPrefix(s.aq, s.sq, s.end, a);
  }

  lemma ScheduleKeeps(s: State, a: nat)
    requires Inv(s) && a < MAX_ACTIVATIONS && s.acts[a].sched == Schedulable
    ensures Inv(Schedule(s, a)) && Schedule(s, a).acts[a].sched == Runnable
  {
    ScheduleMessages(s, a);
    hide MessagesOk, QueueOk;
  }

  lemma ScheduleMessages(s: State, a: nat)
    requires Inv(s) && a < MAX_ACTIVATIONS && s.acts[a].sched == Schedulable
    ensures s.queues[a].start < |s.queues[a].msg| && Shape(Schedule(s, a)) && MessagesOk(Schedule(s, a))
  {
    hide ActiveOk, CallsOk, NumbersOk, Pending, Get;
    assert MessagesOkFor(s.acts[a], s.queues[a], s.pushed[a], s.popped[a]);
    GetTakes(s.queues[a]);
    var t, m := Schedule(s, a), s.queues[a].msg[s.queues[a].start];
    assert s.popped[a] + ([m] + Pending(Get(s.queues[a]))) == s.popped[a] + [m] + Pending(Get(s.queues[a]));
    forall b | 0 <= b < MAX_ACTIVATIONS ensures MessagesOkFor(t.acts[b], t.queues[b], t.pushed[b], t.popped[b]) {
      assert MessagesOkFor(s.acts[b], s.queues[b], s.pushed[b], s.popped[b]);
    }
  }

  lemma SwitchKeeps(s: State, a: nat)
    requires Inv(s) && a < MAX_ACTIVATIONS && IsActive(s.acts[a].sched)
    ensures Running(SwitchTo(s, a)) && SwitchTo(s, a).curr == a
  {
    hide ActiveOk, MessagesOk, CallsOk, NumbersOk, Schedule;
    if s.acts[a].sched == Schedulable {
      ScheduleMessages(s, a);
      ScheduleKeeps(s, a);
      CurrKeeps(Schedule(s, a), a);
    } else {
      CurrKeeps(s, a);
    }
  }

  lemma CurrKeeps(s: State, a: nat)
    requires Inv(s) && a < MAX_ACTIVATIONS
    ensures Inv(s.(curr := a))
  {
    var t := s.(curr := a);
    MessagesStay(s, t, a);
    CallsStay(s, t, a);
    hide MessagesOk, CallsOk;
  }

  /** Whoever is next in turn is active. */
  lemma PickIsActive(s: State)
    requires Inv(s)
    ensures |s.acts| == |s.sq| == MAX_ACTIVATIONS && s.end <= MAX_ACTIVATIONS
    ensures s.end > 0 ==> s.sq[PickIdx(s)] < MAX_ACTIVATIONS && IsActive(s.acts[s.sq[PickIdx(s)]].sched) && s.sq[PickIdx(s)] != 0
  {
    if s.end > 0 {
      assert InPrefix(s.aq, s.sq, s.end, s.sq[PickIdx(s)]);
    }
  }

  lemma IdxKeeps(s: State, idx: nat)
    requires Inv(s)
    ensures Inv(s.(idx := idx))
  {
    var t := s.(idx := idx);
    forall b | 0 <= b < MAX_ACTIVATIONS ensures MessagesOkFor(t.acts[b], t.queues[b], t.pushed[b], t.popped[b]) {
      assert MessagesOkFor(s.acts[b], s.queues[b], s.pushed[b], s.popped[b]);
    }
  }

  /** After rescheduling the current activation is runnable and not the kernel's own. */
  lemma RescheduleKeeps(s: State, hint: nat)
    requires Inv(s) && hint < MAX_ACTIVATIONS
    ensures var o := Reschedule(s, hint); o.Goes? ==> Running(o.s) && o.s.curr != 0
    ensures Reschedule(s, hint).Halted? <==> forall a :: 0 <= a < MAX_ACTIVATIONS ==> !IsActive(s.acts[a].sched)
  {
    if hint != 0 && IsActive(s.acts[hint].sched) {
      SwitchKeeps(s, hint);
    } else if s.end > 0 {
      var t, h := s.(idx := PickIdx(s)), s.sq[PickIdx(s)];
      assert InPrefix(s.aq, s.sq, s.end, h);
      assert Inv(t);
      SwitchKeeps(t, h);
    } else {
      forall a | 0 <= a < MAX_ACTIVATIONS ensures !IsActive(s.acts[a].sched) {
        assert !InPrefix(s.aq, s.sq, s.end, a);
      }
    }
  }

  // ---------- messages ----------

  /** `msg_push` to a queue that is not full. */
  function Push(s: State, dest: nat, m: Msg): State
    requires Shape(s) && dest < MAX_ACTIVATIONS && s.queues[dest].end < |s.queues[dest].msg|
    requires s.acts[dest].sched == Waiting ==> s.end < |s.sq|
  {
    var t := s.(queues := s.queues[dest := Put(s.queues[dest], m)], pushed := s.pushed[dest := s.pushed[dest] + [m]]);
    if s.acts[dest].sched == Waiting then D2A(t, dest, Schedulable) else t
  }

  lemma PushKeeps(s: State, dest: nat, m: Msg)
    requires Inv(s) && 0 < dest < s.next && !Full(s.queues[dest])
    ensures s.queues[dest].end < |s.queues[dest].msg|
    ensures s.acts[dest].sched == Waiting ==> s.end < |s.sq|
    ensures Inv(Push(s, dest, m)) && Push(s, dest, m).pushed == s.pushed[dest := s.pushed[dest] + [m]]
    ensures forall a :: 0 <= a < MAX_ACTIVATIONS && a != dest ==> Push(s, dest, m).acts[a] == s.acts[a]
    ensures s.acts[dest].sched != Waiting ==> Push(s, dest, m).acts == s.acts
  {
    PushMessages(s, dest, m);
    PushActive(s, dest, m);
    hide MessagesOk, ActiveOk, CallsOk, QAdd, Put;
    CallsStay(s, Push(s, dest, m), dest);
  }

  lemma PushActive(s: State, dest: nat, m: Msg)
    requires Inv(s) && 0 < dest < s.next && !Full(s.queues[dest])
    ensures s.queues[dest].end < |s.queues[dest].msg| && (s.acts[dest].sched == Waiting ==> s.end < |s.sq|)
    ensures Shape(Push(s, dest, m)) && ActiveOk(Push(s, dest, m))
  {
    PushMessages(s, dest, m);
    hide MessagesOk, CallsOk, QueueOk, QAdd, InPrefix, Put;
    if s.acts[dest].sched == Waiting {
      AddKeeps(s.aq, s.sq, s.end, dest);
    }
  }

  lemma PushMessages(s: State, dest: nat, m: Msg)
    requires Inv(s) && 0 < dest < s.next && !Full(s.queues[dest])
    ensures s.queues[dest].end < |s.queues[dest].msg|
    ensures s.acts[dest].sched == Waiting ==> s.end < |s.sq| && !InPrefix(s.aq, s.sq, s.end, dest)
    ensures Shape(Push(s, dest, m)) && MessagesOk(Push(s, dest, m))
  {
    hide CallsOk, NumbersOk, Pending, Put;
    assert MessagesOkFor(s.acts[dest], s.queues[dest], s.pushed[dest], s.popped[dest]);
    PutAppends(s.queues[dest], m);
    QueueBounds(Put(s.queues[dest], m));
    if s.acts[dest].sched == Waiting {
      RoomLeft(s.aq, s.sq, s.end, dest);
    }
    hide ActiveOk;
    var t, p := Push(s, dest, m), Pending(s.queues[dest]);
    assert s.popped[dest] + (p + [m]) == s.popped[dest] + p + [m];
    forall b | 0 <= b < MAX_ACTIVATIONS ensures MessagesOkFor(t.acts[b], t.queues[b], t.pushed[b], t.popped[b]) {
      assert MessagesOkFor(s.acts[b], s.queues[b], s.pushed[b], s.popped[b]);
    }
  }

  /** `act_wait`: to `Waiting` without a message, else to `Schedulable`; then on to another activation. */
  function Wait(s: State, a: nat, hint: nat): Outcome
    requires Inv(s) && a < MAX_ACTIVATIONS && hint < MAX_ACTIVATIONS
  {
    if s.acts[a].sched != Runnable then Halted
    else Reschedule(Idle(s, a), hint)
  }

  function Idle(s: State, a: nat): (t: State)
    requires Inv(s) && a < MAX_ACTIVATIONS && s.acts[a].sched == Runnable
    ensures Inv(t)
  {
    IdleKeeps(s, a);
    if Empty(s.queues[a]) then A2D(s, a, Waiting) else s.(acts := s.acts[a := s.acts[a].(sched := Schedulable)])
  }

  lemma IdleKeeps(s: State, a: nat)
    requires Inv(s) && a < MAX_ACTIVATIONS && s.acts[a].sched == Runnable
    ensures Empty(s.queues[a]) ==> CanDel(s, a) && Inv(A2D(s, a, Waiting))
    ensures !Empty(s.queues[a]) ==> Inv(s.(acts := s.acts[a := s.acts[a].(sched := Schedulable)]))
  {
    if Empty(s.queues[a]) {
      A2DKeeps(s, a, Waiting);
    } else {
      var t := s.(acts := s.acts[a := s.acts[a].(sched := Schedulable)]);
      forall b | 0 <= b < MAX_ACTIVATIONS ensures MessagesOkFor(t.acts[b], t.queues[b], t.pushed[b], t.popped[b]) {
        assert MessagesOkFor(s.acts[b], s.queues[b], s.pushed[b], s.popped[b]);
      }
    }
  }

  // ---------- synchronous calls ----------

  /** `get_sync_token`: a 32-bit counter gives every call its number. */
  function NewCall(s: State, a: nat): State
    requires a < |s.acts|
  {
    var u := (s.unique + 1) % CALL_NUMBERS;
    s.(unique := u, acts := s.acts[a := s.acts[a].(expected := u)], issued := s.issued[u := a])
  }

  lemma NewCallKeeps(s: State, a: nat)
    requires Inv(s) && a < MAX_ACTIVATIONS && s.acts[a].sched == Runnable && s.unique + 1 < CALL_NUMBERS
    ensures Inv(NewCall(s, a)) && NewCall(s, a).unique == s.unique + 1
    ensures s.unique + 1 !in s.issued && s.unique + 1 !in s.answered
  {
    NewNumber(s);
    NewCallMessages(s, a);
    NewCallCalls(s, a);
    hide MessagesOk, CallsOk, QueueOk, InPrefix;
  }

  lemma NewNumber(s: State)
    requires Inv(s) && s.unique + 1 < CALL_NUMBERS
    ensures (s.unique + 1) % CALL_NUMBERS == s.unique + 1
    ensures s.unique + 1 !in s.issued && s.unique + 1 !in s.answered
  {
    hide ActiveOk, MessagesOk, NumbersOk;
  }

  lemma NewCallMessages(s: State, a: nat)
    requires Inv(s) && a < MAX_ACTIVATIONS
    ensures Shape(NewCall(s, a)) && MessagesOk(NewCall(s, a))
  {
    hide ActiveOk, CallsOk, NumbersOk, Pending, QueueShape;
    var t := NewCall(s, a);
    forall b | 0 <= b < MAX_ACTIVATIONS ensures MessagesOkFor(t.acts[b], t.queues[b], t.pushed[b], t.popped[b]) {
      assert MessagesOkFor(s.acts[b], s.queues[b], s.pushed[b], s.popped[b]);
    }
  }

  lemma NewCallCalls(s: State, a: nat)
    requires Inv(s) && a < MAX_ACTIVATIONS && s.acts[a].sched == Runnable && s.unique + 1 < CALL_NUMBERS
    ensures Shape(NewCall(s, a)) && CallsOk(NewCall(s, a))
  {
    hide ActiveOk, MessagesOk, NumbersOk;
    NewNumber(s);
  }

  /** The registers with which the current activation enters the kernel. */
  function Enter(s: State, regs: Frame): State
    requires s.curr < |s.frames|
  {
    s.(frames := s.frames[s.curr := regs])
  }

  lemma EnterKeeps(s: State, regs: Frame)
    requires Running(s)
    ensures Running(Enter(s, regs)) && 0 < s.curr < s.next
  {
    var t := Enter(s, regs);
    forall b | 0 <= b < MAX_ACTIVATIONS ensures MessagesOkFor(t.acts[b], t.queues[b], t.pushed[b], t.popped[b]) {
      assert MessagesOkFor(s.acts[b], s.queues[b], s.pushed[b], s.popped[b]);
    }
  }

  datatype Call = Send | SendSwitch | SyncCall | Unknown

  /** The message part of `kernel_ccall_core`, for the call kinds that go on with a full queue. */
  function SendTo(s: State, dest: nat, idc: nat, c1: Token): State
    requires Inv(s) && 0 < dest < s.next
  {
    var m := Msg(s.frames[s.curr].args, idc, c1);
    if Full(s.queues[dest]) then
      s.(frames := s.frames[s.curr := s.frames[s.curr].(args := s.frames[s.curr].args.(v0 := 0))])
    else
      PushKeeps(s, dest, m);
      Push(s, dest, m)
  }

  lemma SendKeeps(s: State, dest: nat, idc: nat, c1: Token)
    requires Running(s) && 0 < dest < s.next
    ensures Running(SendTo(s, dest, idc, c1)) && SendTo(s, dest, idc, c1).acts[s.curr] == s.acts[s.curr]
    ensures SendTo(s, dest, idc, c1).curr == s.curr
  {
    if Full(s.queues[dest]) {
      EnterKeeps(s, s.frames[s.curr].(args := s.frames[s.curr].args.(v0 := 0)));
    } else {
      PushKeeps(s, dest, Msg(s.frames[s.curr].args, idc, c1));
    }
  }

  /** `kernel_ccall` with `kernel_ccall_core`. */
  function CCall(s0: State, regs: Frame, kind: Call, dest: nat, storeOk: bool, idc: nat): Outcome
    requires Running(s0) && 0 < dest < s0.next && (kind == SyncCall ==> s0.unique + 1 < CALL_NUMBERS)
  {
    EnterKeeps(s0, regs);
    var s := Enter(s0, regs);
    if kind == Unknown || !storeOk || s.acts[dest].status != Alive then Goes(s)
    else if kind == SyncCall then
      NewCallKeeps(s, s.curr);
      var t := NewCall(s, s.curr);
      if Full(t.queues[dest]) then Halted
      else
        SendKeeps(t, dest, idc, Token(s.curr, t.unique));
        var v := SendTo(t, dest, idc, Token(s.curr, t.unique));
        BlockKeeps(v, s.curr);
        Reschedule(A2D(v, s.curr, SyncBlock), dest)
    else
      SendKeeps(s, dest, idc, NoToken);
      var t := SendTo(s, dest, idc, NoToken);
      if kind == SendSwitch then Wait(t, s.curr, dest) else Goes(t)
  }

  lemma BlockKeeps(s: State, a: nat)
    requires Inv(s) && a < MAX_ACTIVATIONS && s.acts[a].sched == Runnable
    requires LatestOpen(s, a)
    ensures CanDel(s, a) && Inv(A2D(s, a, SyncBlock))
  {
    A2DKeeps(s, a, SyncBlock);
  }

  // ---------- returning ----------

  /** A sealed token can only be one that the kernel has made. */
  ghost predicate Issued(s: State, t: Token) {
    t.Token? ==> t.unique in s.issued && s.issued[t.unique] == t.caller
  }

  /** The answer expected by the caller named in the token; the reply keeps 28 bits of the number. */
  predicate Expected(s: State, t: Token)
    requires t.Token? && t.caller < |s.acts|
  {
    s.acts[t.caller].expected == t.unique % 0x1000_0000
  }

  /** `kernel_creturn` takes the answer. */
  predicate Accepts(s: State, t: Token)
    requires t.Token? && t.caller < |s.acts|
  {
    Expected(s, t) && s.acts[t.caller].sched == SyncBlock
  }

  /** The caller goes on with the values returned. */
  function Answer(s: State, t: Token): State
    requires Shape(s) && t.Token? && t.caller < MAX_ACTIVATIONS && s.end < |s.sq|
  {
    var c, r := s.frames[t.caller], s.frames[s.curr];
    var v := D2A(s, t.caller, Runnable);
    v.(frames := s.frames[t.caller := c.(args := c.args.(c3 := r.args.c3, v0 := r.args.v0), v1 := r.v1)],
       answered := s.answered + {s.acts[t.caller].expected})
  }

  lemma CloseKeeps(s: State, frames: seq<Frame>, u: nat)
    requires Inv(s) && |frames| == MAX_ACTIVATIONS && u in s.issued && s.issued[u] < MAX_ACTIVATIONS && s.acts[s.issued[u]].sched != SyncBlock
    ensures Inv(s.(frames := frames, answered := s.answered + {u}))
  {
    var v := s.(frames := frames, answered := s.answered + {u});
    forall b | 0 <= b < MAX_ACTIVATIONS ensures MessagesOkFor(v.acts[b], v.queues[b], v.pushed[b], v.popped[b]) {
      assert MessagesOkFor(s.acts[b], s.queues[b], s.pushed[b], s.popped[b]);
    }
  }

  lemma AnswerFacts(s: State, t: Token)
    requires Running(s) && t.Token? && Issued(s, t) && t.caller < MAX_ACTIVATIONS && Accepts(s, t)
    ensures 0 < t.caller < s.next && t.caller != s.curr
    ensures s.acts[t.caller].expected == t.unique && t.unique !in s.answered
  {
    hide ActiveOk, MessagesOk;
  }

  lemma AnswerKeeps(s: State, t: Token)
    requires Running(s) && t.Token? && Issued(s, t) && t.caller < MAX_ACTIVATIONS && Accepts(s, t)
    ensures s.end < |s.sq| && Running(Answer(s, t)) && t.caller != s.curr
    ensures s.acts[t.caller].expected == t.unique && t.unique !in s.answered
    ensures Answer(s, t).acts == s.acts[t.caller := s.acts[t.caller].(sched := Runnable)]
  {
    hide ActiveOk, MessagesOk, CallsOk, NumbersOk, QAdd;
    AnswerFacts(s, t);
    D2AKeeps(s, t.caller, Runnable);
    var c, r := s.frames[t.caller], s.frames[s.curr];
    var frames := s.frames[t.caller := c.(args := c.args.(c3 := r.args.c3, v0 := r.args.v0), v1 := r.v1)];
    CloseKeeps(D2A(s, t.caller, Runnable), frames, t.unique);
  }

  /** `kernel_creturn`. */
  function CReturn(s0: State, regs: Frame): Outcome
    requires Running(s0) && Issued(s0, regs.c1)
  {
    EnterKeeps(s0, regs);
    var s := Enter(s0, regs);
    if regs.c1.NoToken? then Wait(s, s.curr, s.curr)
    else if !Accepts(s, regs.c1) then Halted
    else
      AnswerKeeps(s, regs.c1);
      Wait(Answer(s, regs.c1), s.curr, regs.c1.caller)
  }

  /** The right answer to a call is accepted exactly if the number of the call fits into 28 bits. */
  lemma AnswerAcceptedIff(s: State, a: nat, u: nat)
    requires a < |s.acts| && s.acts[a].sched == SyncBlock && s.acts[a].expected == u
    ensures Accepts(s, Token(a, u)) <==> u < 0x1000_0000
  {
  }

  /** The call numbered 2 to the 28 is one whose right answer is refused. */
  lemma AnswerRefused(s: State, a: nat)
    requires a < |s.acts| && s.unique == 0x0FFF_FFFF
    ensures var t := NewCall(s, a);
      t.acts[a].expected == 0x1000_0000 && t.issued[0x1000_0000] == a && !Accepts(t, Token(a, 0x1000_0000))
  {
  }

  /** After 2 to the 32 calls numbers repeat: the second call from there on is numbered 1 again. */
  lemma NumbersRepeat(s: State, a: nat)
    requires a < |s.acts| && s.unique == CALL_NUMBERS - 1
    ensures NewCall(NewCall(s, a), a).unique == 1
    ensures 1 in s.issued ==> NewCall(NewCall(s, a), a).issued.Keys == s.issued.Keys + {0}
  {
  }

  // ---------- registering and terminating ----------

  /** `act_register`. */
  function Register(s: State, frame: Frame): Outcome
    requires Shape(s)
  {
    if s.next >= MAX_ACTIVATIONS then Halted else Goes(SlotFilled(s, frame))
  }

  function SlotFilled(s: State, frame: Frame): State
    requires s.next < |s.acts| && s.next < |s.frames| && s.next < |s.queues|
  {
    s.(acts := s.acts[s.next := Act(Alive, Waiting, s.acts[s.next].expected)],
       frames := s.frames[s.next := frame],
       queues := s.queues[s.next := Queue(0, 0, s.queues[s.next].msg)],
       next := s.next + 1)
  }

  lemma RegisterKeeps(s: State, frame: Frame)
    requires Running(s)
    ensures var o := Register(s, frame); o.Goes? ==> Running(o.s)
  {
    hide CallsOk;
    var o := Register(s, frame);
    if o.Goes? {
      CallsStay(s, o.s, s.next);
      forall b | 0 <= b < MAX_ACTIVATIONS ensures MessagesOkFor(o.s.acts[b], o.s.queues[b], o.s.pushed[b], o.s.popped[b]) {
        assert MessagesOkFor(s.acts[b], s.queues[b], s.pushed[b], s.popped[b]);
        assert b == s.next ==> Pending(s.queues[b]) == [];
      }
    }
  }

  /** `act_terminate` up to the test whether an activation has ended itself. */
  function End(s: State, a: nat): State
    requires a < |s.acts| && a < |s.aq| && 0 < s.end <= |s.sq| && s.sq[s.end - 1] < |s.aq|
  {
    var (aq, sq, end) := Delete(s.aq, s.sq, s.end, a);
    s.(aq := aq, sq := sq, end := end, acts := s.acts[a := Act(Terminated, Ended, s.acts[a].expected)])
  }

  /** The guard of `sched_delete` tells the truth about `a`. */
  ghost predicate GuardTells(s: State, a: nat)
    requires a < |s.aq|
  {
    InPrefix(s.aq, s.sq, s.end, a) || !Guard(s.aq, s.sq, a)
  }

  lemma CurrentIsActive(s: State)
    requires Running(s)
    ensures 0 < s.end <= |s.sq| && s.sq[s.end - 1] < |s.aq|
  {
    assert InPrefix(s.aq, s.sq, s.end, s.curr);
  }

  lemma CurrentTells(s: State)
    requires Running(s)
    ensures GuardTells(s, s.curr)
  {
    assert InPrefix(s.aq, s.sq, s.end, s.curr);
  }

  lemma EndKeeps(s: State, a: nat)
    requires Running(s) && 0 < a < s.next && 0 < s.end <= |s.sq| && s.sq[s.end - 1] < |s.aq|
    requires RemovesOnly(s.aq, s.sq, s.end, a)
    ensures Inv(End(s, a))
  {
    hide ActiveOk, MessagesOk, CallsOk, RemovesOnly, Delete;
    EndActive(s, a);
    MessagesStay(s, End(s, a), a);
    CallsStay(s, End(s, a), a);
  }

  lemma EndActive(s: State, a: nat)
    requires Running(s) && 0 < a < s.next && 0 < s.end <= |s.sq| && s.sq[s.end - 1] < |s.aq|
    requires RemovesOnly(s.aq, s.sq, s.end, a)
    ensures Shape(End(s, a)) && ActiveOk(End(s, a))
  {
    hide MessagesOk, CallsOk, NumbersOk, QueueOk, InPrefix, Delete;
  }

  lemma EndNeeds(s: State, a: nat)
    requires Running(s) && 0 < a < s.next && 0 < s.end <= |s.sq| && s.sq[s.end - 1] < |s.aq|
    requires Inv(End(s, a))
    ensures RemovesOnly(s.aq, s.sq, s.end, a)
  {
    hide MessagesOk, CallsOk;
    var t := End(s, a);
    forall b | 0 <= b < MAX_ACTIVATIONS ensures InPrefix(t.aq, t.sq, t.end, b) <==> b != a && InPrefix(s.aq, s.sq, s.end, b) {
    }
  }

  /** Termination keeps the invariant if and only if the guard tells the truth. */
  lemma EndIff(s: State, a: nat)
    requires Running(s) && 0 < a < s.next
    ensures 0 < s.end <= |s.sq| && s.sq[s.end - 1] < |s.aq|
    ensures Inv(End(s, a)) <==> GuardTells(s, a)
  {
    CurrentIsActive(s);
    DeleteIff(s.aq, s.sq, s.end, a);
    hide RemovesOnly;
    if RemovesOnly(s.aq, s.sq, s.end, a) {
      EndKeeps(s, a);
    }
    if Inv(End(s, a)) {
      EndNeeds(s, a);
    }
  }

  lemma DeleteInRange(s: State, a: nat)
    requires Running(s) && a < MAX_ACTIVATIONS
    ensures s.aq[a] < MAX_ACTIVATIONS
  {
  }

  /** The system call around `act_terminate`. */
  function Terminate(s: State, a: nat): Outcome
    requires Running(s) && 0 < a < s.next
  {
    EndIff(s, a);
    CurrentTells(s);
    var t := End(s, a);
    if a == s.curr then Reschedule(t, 0)
    else Goes(t.(frames := t.frames[t.curr := t.frames[t.curr].(args := t.frames[t.curr].args.(v0 := 0))]))
  }

  /** `kernel_interrupt_others` for one pending interrupt `i` whose handler is `dest`. */
  function Interrupt(s: State, i: int, dest: nat): Outcome
    requires Running(s) && 0 < dest < s.next
  {
    var f := s.frames[0];
    var t := s.(frames := s.frames[0 := f.(args := f.args.(v0 := -3, a0 := i))]);
    if Full(t.queues[dest]) then Halted
    else
      InterruptKeeps(s, i, dest);
      Goes(Push(t, dest, Msg(t.frames[0].args, 0, NoToken)))
  }

  lemma InterruptKeeps(s: State, i: int, dest: nat)
    requires Running(s) && 0 < dest < s.next && !Full(s.queues[dest])
    ensures var t := s.(frames := s.frames[0 := s.frames[0].(args := s.frames[0].args.(v0 := -3, a0 := i))]);
      && t.queues[dest].end < |t.queues[dest].msg| && (t.acts[dest].sched == Waiting ==> t.end < |t.sq|)
      && Running(Push(t, dest, Msg(t.frames[0].args, 0, NoToken)))
  {
    var t := s.(frames := s.frames[0 := s.frames[0].(args := s.frames[0].args.(v0 := -3, a0 := i))]);
    forall b | 0 <= b < MAX_ACTIVATIONS ensures MessagesOkFor(t.acts[b], t.queues[b], t.pushed[b], t.popped[b]) {
      assert MessagesOkFor(s.acts[b], s.queues[b], s.pushed[b], s.popped[b]);
    }
    assert Inv(t);
    PushKeeps(t, dest, Msg(t.frames[0].args, 0, NoToken));
  }

  lemma InterruptFrame(s: State, i: int)
    requires Running(s)
    ensures Running(s.(frames := s.frames[0 := s.frames[0].(args := s.frames[0].args.(v0 := -3, a0 := i))]))
  {
    var t := s.(frames := s.frames[0 := s.frames[0].(args := s.frames[0].args.(v0 := -3, a0 := i))]);
    forall b | 0 <= b < MAX_ACTIVATIONS ensures MessagesOkFor(t.acts[b], t.queues[b], t.pushed[b], t.popped[b]) {
      assert MessagesOkFor(s.acts[b], s.queues[b], s.pushed[b], s.popped[b]);
    }
  }

  /** One line: its handler gets one message, and nobody else anything; it fails only on a full queue. */
  lemma InterruptStep(s: State, i: int, dest: nat)
    requires Running(s) && 0 < dest < s.next
    ensures Interrupt(s, i, dest).Halted? <==> Full(s.queues[dest])
    ensures var o := Interrupt(s, i, dest); o.Goes? ==> Told(s, o.s, i, dest)
  {
    hide ActiveOk, MessagesOk, CallsOk, NumbersOk;
    if !Full(s.queues[dest]) { InterruptKeeps(s, i, dest); }
  }

  /** Line `i` has told `dest`. */
  ghost predicate Told(s: State, t: State, i: int, dest: nat)
    requires Inv(s) && dest < MAX_ACTIVATIONS
  {
    && Running(t) && t.answered == s.answered && t.next == s.next && t.popped == s.popped
    && t.frames[0].args == s.frames[0].args.(v0 := -3, a0 := i)
    && t.pushed == s.pushed[dest := s.pushed[dest] + [LineMsg(s.frames[0].args, i)]]
  }

  /** The message that line `i` sends. */
  function LineMsg(args: Args, i: int): Msg {
    Msg(args.(v0 := -3, a0 := i), 0, NoToken)
  }

  predicate Lines(pending: seq<bool>, child: seq<nat>) {
    |pending| == |child| == LINES
  }

  /** Lines have registered handlers, or none. */
  predicate Handlers(s: State, child: seq<nat>) {
    forall i :: 0 <= i < |child| ==> child[i] < s.next
  }

  /** `kernel_interrupt_others` from line `i` on; 0 is the handler of a line that has none. */
  function Interrupts(s: State, pending: seq<bool>, child: seq<nat>, i: nat): Outcome
    requires Running(s) && Lines(pending, child) && Handlers(s, child) && i <= LINES
    decreases LINES - i
  {
    if i == LINES then Goes(s)
    else if !pending[i] || child[i] == 0 then Interrupts(s, pending, child, i + 1)
    else
      InterruptStep(s, i, child[i]);
      var o := Interrupt(s, i, child[i]);
      if o.Halted? then Halted else Interrupts(o.s, pending, child, i + 1)
  }

  /** What the pending lines from `i` on have to tell activation `a`, in order. */
  function LineMsgs(args: Args, pending: seq<bool>, child: seq<nat>, a: nat, i: nat): seq<Msg>
    requires Lines(pending, child) && i <= LINES
    decreases LINES - i
  {
    if i == LINES then []
    else (if pending[i] && child[i] == a != 0 then [LineMsg(args, i)] else []) + LineMsgs(args, pending, child, a, i + 1)
  }

  lemma {:induction false} LineMsgsSame(args: Args, j: int, pending: seq<bool>, child: seq<nat>, a: nat, i: nat)
    requires Lines(pending, child) && i <= LINES
    ensures LineMsgs(args.(v0 := -3, a0 := j), pending, child, a, i) == LineMsgs(args, pending, child, a, i)
    decreases LINES - i
  {
    if i < LINES {
      LineMsgsSame(args, j, pending, child, a, i + 1);
    }
  }

  lemma LineMsgsFrom(s: State, t: State, pending: seq<bool>, child: seq<nat>, a: nat, i: nat)
    requires Inv(s) && Lines(pending, child) && a < MAX_ACTIVATIONS && i < LINES
    requires pending[i] && 0 < child[i] < MAX_ACTIVATIONS && Told(s, t, i, child[i])
    ensures t.pushed[a] + LineMsgs(t.frames[0].args, pending, child, a, i + 1) == s.pushed[a] + LineMsgs(s.frames[0].args, pending, child, a, i)
  {
    hide ActiveOk, MessagesOk, CallsOk, NumbersOk, LineMsg;
    var args := s.frames[0].args;
    LineMsgsSame(args, i, pending, child, a, i + 1);
    var p, q, r := s.pushed[a], [LineMsg(args, i)], LineMsgs(args, pending, child, a, i + 1);
    if child[i] == a {
      assert LineMsgs(args, pending, child, a, i) == q + r;
      assert (p + q) + r == p + (q + r);
    } else {
      assert LineMsgs(args, pending, child, a, i) == [] + r;
      assert [] + r == r;
    }
  }

  lemma {:induction false} InterruptsKeep(s: State, pending: seq<bool>, child: seq<nat>, i: nat)
    requires Running(s) && Lines(pending, child) && Handlers(s, child) && i <= LINES
    ensures var o := Interrupts(s, pending, child, i);
      o.Goes? ==> (Running(o.s) && o.s.answered == s.answered && o.s.popped == s.popped)
    decreases LINES - i
  {
    hide Inv, Interrupt;
    if i < LINES {
      if !pending[i] || child[i] == 0 {
        InterruptsKeep(s, pending, child, i + 1);
      } else {
        InterruptStep(s, i, child[i]);
        var o := Interrupt(s, i, child[i]);
        if o.Goes? { InterruptsKeep(o.s, pending, child, i + 1); }
      }
    }
  }

  /** Every activation gets the messages of its pending lines, in order, and no others. */
  lemma {:induction false} InterruptsDeliver(s: State, pending: seq<bool>, child: seq<nat>, a: nat, i: nat)
    requires Running(s) && Lines(pending, child) && Handlers(s, child) && a < MAX_ACTIVATIONS && i <= LINES
    ensures var o := Interrupts(s, pending, child, i);
      o.Goes? ==> Running(o.s) && o.s.pushed[a] == s.pushed[a] + LineMsgs(s.frames[0].args, pending, child, a, i)
    decreases LINES - i
  {
    hide ActiveOk, MessagesOk, CallsOk, NumbersOk, Interrupt, LineMsg;
    if i < LINES {
      if !pending[i] || child[i] == 0 {
        InterruptsDeliver(s, pending, child, a, i + 1);
      } else {
        InterruptStep(s, i, child[i]);
        var o := Interrupt(s, i, child[i]);
        if o.Goes? {
          InterruptsDeliver(o.s, pending, child, a, i + 1);
          LineMsgsFrom(s, o.s, pending, child, a, i);
        }
      }
    }
  }

  /** The messages that wait for `a` and those of its pending lines from `i` on are more than a queue holds. */
  ghost predicate NoRoom(s: State, pending: seq<bool>, child: seq<nat>, a: nat, i: nat)
    requires Inv(s) && Lines(pending, child) && a < MAX_ACTIVATIONS && i <= LINES
  {
    |s.pushed[a]| - |s.popped[a]| + |LineMsgs(s.frames[0].args, pending, child, a, i)| >= MAX_MSG
  }

  lemma WaitingCount(s: State, a: nat)
    requires Inv(s) && a < MAX_ACTIVATIONS
    ensures |s.pushed[a]| - |s.popped[a]| <= MAX_MSG - 1
    ensures Full(s.queues[a]) <==> |s.pushed[a]| - |s.popped[a]| == MAX_MSG - 1
  {
    assert MessagesOkFor(s.acts[a], s.queues[a], s.pushed[a], s.popped[a]);
    QueueBounds(s.queues[a]);
  }

  lemma RoomAfter(s: State, t: State, pending: seq<bool>, child: seq<nat>, a: nat, i: nat)
    requires Inv(s) && Lines(pending, child) && a < MAX_ACTIVATIONS && i < LINES
    requires pending[i] && 0 < child[i] < MAX_ACTIVATIONS && Told(s, t, i, child[i])
    ensures NoRoom(t, pending, child, a, i + 1) <==> NoRoom(s, pending, child, a, i)
  {
    hide ActiveOk, MessagesOk, CallsOk, NumbersOk;
    LineMsgsSame(s.frames[0].args, i, pending, child, a, i + 1);
  }

  ghost predicate Overflow(s: State, pending: seq<bool>, child: seq<nat>, i: nat)
    requires Inv(s) && Lines(pending, child) && i <= LINES
  {
    exists a :: 0 <= a < MAX_ACTIVATIONS && NoRoom(s, pending, child, a, i)
  }

  lemma SameOverflow(s: State, t: State, pending: seq<bool>, child: seq<nat>, i: nat, j: nat)
    requires Inv(s) && Inv(t) && Lines(pending, child) && i <= LINES && j <= LINES
    requires forall a :: 0 <= a < MAX_ACTIVATIONS ==> (NoRoom(s, pending, child, a, i) <==> NoRoom(t, pending, child, a, j))
    ensures Overflow(s, pending, child, i) <==> Overflow(t, pending, child, j)
  {
    hide Inv, NoRoom;
  }

  /** The kernel stops exactly if some activation has no room for the messages of its lines. */
  lemma {:induction false} InterruptsHaltIff(s: State, pending: seq<bool>, child: seq<nat>, i: nat)
    requires Running(s) && Lines(pending, child) && Handlers(s, child) && i <= LINES
    ensures Interrupts(s, pending, child, i).Halted? <==> Overflow(s, pending, child, i)
    decreases LINES - i
  {
    hide ActiveOk, MessagesOk, CallsOk, NumbersOk, Interrupt, Full, LineMsg;
    if i == LINES {
      forall a | 0 <= a < MAX_ACTIVATIONS ensures !NoRoom(s, pending, child, a, i) {
        WaitingCount(s, a);
      }
    } else if !pending[i] || child[i] == 0 {
      InterruptsHaltIff(s, pending, child, i + 1);
      SameOverflow(s, s, pending, child, i, i + 1);
    } else {
      WaitingCount(s, child[i]);
      InterruptStep(s, i, child[i]);
      var o := Interrupt(s, i, child[i]);
      if o.Halted? {
        assert NoRoom(s, pending, child, child[i], i);
      } else {
        InterruptsHaltIff(o.s, pending, child, i + 1);
        forall a | 0 <= a < MAX_ACTIVATIONS ensures NoRoom(s, pending, child, a, i) <==> NoRoom(o.s, pending, child, a, i + 1) {
          RoomAfter(s, o.s, pending, child, a, i);
        }
        SameOverflow(s, o.s, pending, child, i, i + 1);
      }
    }
  }

  // ---------- runs ----------

  datatype Op =
    | DoCall(regs: Frame, kind: Call, dest: nat, storeOk: bool, idc: nat)
    | DoReturn(regs: Frame)
    | DoRegister(frame: Frame)
    | DoTerminate(act: nat)
    | DoInterrupts(pending: seq<bool>, child: seq<nat>)
    | DoReschedule

  /** What can happen: calls and interrupts name registered activations, tokens are the kernel's own. */
  ghost predicate Allowed(s: State, op: Op)
    requires Running(s)
  {
    match op
    case DoCall(_, kind, dest, _, _) => 0 < dest < s.next && (kind == SyncCall ==> s.unique + 1 < CALL_NUMBERS)
    case DoReturn(regs) => Issued(s, regs.c1)
    case DoRegister(_) => true
    case DoTerminate(a) => 0 < a < s.next
    case DoInterrupts(pending, child) => Lines(pending, child) && Handlers(s, child)
    case DoReschedule => true
  }

  function Step(s: State, op: Op): Outcome
    requires Running(s) && Allowed(s, op)
  {
    match op
    case DoCall(regs, kind, dest, storeOk, idc) => CCall(s, regs, kind, dest, storeOk, idc)
    case DoReturn(regs) => CReturn(s, regs)
    case DoRegister(frame) => Register(s, frame)
    case DoTerminate(a) => Terminate(s, a)
    case DoInterrupts(pending, child) => Interrupts(s, pending, child, 0)
    case DoReschedule => Reschedule(s, 0)
  }

  /** What only messages and calls change. */
  ghost predicate SameBooks(s: State, t: State) {
    t.pushed == s.pushed && t.issued == s.issued && t.answered == s.answered && t.unique == s.unique && t.next == s.next
  }

  lemma RescheduleBooks(s: State, hint: nat)
    requires Inv(s) && hint < MAX_ACTIVATIONS
    ensures var o := Reschedule(s, hint); o.Goes? ==> SameBooks(s, o.s)
  {
    hide ActiveOk, MessagesOk, CallsOk, NumbersOk;
  }

  lemma WaitKeeps(s: State, a: nat, hint: nat)
    requires Inv(s) && a < MAX_ACTIVATIONS && hint < MAX_ACTIVATIONS
    ensures var o := Wait(s, a, hint); o.Goes? ==> Running(o.s) && SameBooks(s, o.s)
  {
    assert |s.acts| == MAX_ACTIVATIONS;
    hide Inv, Reschedule, Running;
    if s.acts[a].sched == Runnable {
      RescheduleKeeps(Idle(s, a), hint);
      RescheduleBooks(Idle(s, a), hint);
    }
  }

  lemma BlockBooks(s: State, a: nat, hint: nat)
    requires Inv(s) && CanDel(s, a) && Inv(A2D(s, a, SyncBlock)) && hint < MAX_ACTIVATIONS
    ensures var o := Reschedule(A2D(s, a, SyncBlock), hint); o.Goes? ==> Running(o.s) && SameBooks(s, o.s)
  {
    RescheduleKeeps(A2D(s, a, SyncBlock), hint);
    RescheduleBooks(A2D(s, a, SyncBlock), hint);
    hide Inv, Running, Reschedule;
  }

  lemma SendBooks(s: State, dest: nat, idc: nat, c1: Token)
    requires Running(s) && 0 < dest < s.next
    ensures var t := SendTo(s, dest, idc, c1);
      t.answered == s.answered && t.issued == s.issued && t.unique == s.unique && t.next == s.next
  {
    hide ActiveOk, MessagesOk, CallsOk, NumbersOk;
  }

  /** A call keeps the invariant; only a synchronous one opens a new account. */
  lemma CCallKeeps(s0: State, regs: Frame, kind: Call, dest: nat, storeOk: bool, idc: nat)
    requires Running(s0) && 0 < dest < s0.next && (kind == SyncCall ==> s0.unique + 1 < CALL_NUMBERS)
    ensures var o := CCall(s0, regs, kind, dest, storeOk, idc); o.Goes? ==> Running(o.s) && o.s.answered == s0.answered
  {
    EnterKeeps(s0, regs);
    var s := Enter(s0, regs);
    hide ActiveOk, MessagesOk, CallsOk, NumbersOk, Reschedule, A2D, Wait, SendTo;
    if kind == Unknown || !storeOk || s.acts[dest].status != Alive {
    } else if kind == SyncCall {
      NewCallKeeps(s, s.curr);
      var t := NewCall(s, s.curr);
      if !Full(t.queues[dest]) {
        SendKeeps(t, dest, idc, Token(s.curr, t.unique));
        SendBooks(t, dest, idc, Token(s.curr, t.unique));
        var v := SendTo(t, dest, idc, Token(s.curr, t.unique));
        BlockKeeps(v, s.curr);
        BlockBooks(v, s.curr, dest);
      }
    } else {
      SendKeeps(s, dest, idc, NoToken);
      SendBooks(s, dest, idc, NoToken);
      if kind == SendSwitch {
        WaitKeeps(SendTo(s, dest, idc, NoToken), s.curr, dest);
      }
    }
  }

  lemma CReturnKeeps(s0: State, regs: Frame)
    requires Running(s0) && Issued(s0, regs.c1)
    ensures var o := CReturn(s0, regs);
      o.Goes? ==> Running(o.s) && o.s.answered == s0.answered + if regs.c1.Token? then {regs.c1.unique} else {}
  {
    EnterKeeps(s0, regs);
    var s := Enter(s0, regs);
    if regs.c1.NoToken? {
      WaitKeeps(s, s.curr, s.curr);
    } else if Accepts(s, regs.c1) {
      AnswerKeeps(s, regs.c1);
      WaitKeeps(Answer(s, regs.c1), s.curr, regs.c1.caller);
    }
  }

  /** Termination leaves a running system if and only if the guard of `sched_delete` tells the truth. */
  lemma TerminateIff(s: State, a: nat)
    requires Running(s) && 0 < a < s.next
    ensures var o := Terminate(s, a); o.Goes? ==> (Running(o.s) <==> GuardTells(s, a)) && o.s.answered == s.answered
  {
    EndIff(s, a);
    CurrentTells(s);
    var t := End(s, a);
    if a == s.curr {
      RescheduleKeeps(t, 0);
      RescheduleBooks(t, 0);
    } else {
      EndOther(s, a);
    }
  }

  lemma EndOther(s: State, a: nat)
    requires Running(s) && 0 < a < s.next && a != s.curr
    ensures var o := Terminate(s, a); o.Goes? && (Running(o.s) <==> GuardTells(s, a)) && o.s.answered == s.answered
  {
    EndIff(s, a);
    var t := End(s, a);
    var regs := t.frames[t.curr].(args := t.frames[t.curr].args.(v0 := 0));
    assert t.acts[t.curr].sched == Runnable;
    if Inv(t) {
      EnterKeeps(t, regs);
    }
    if Running(Enter(t, regs)) {
      EnterKeeps(Enter(t, regs), t.frames[t.curr]);
      assert t == Enter(Enter(t, regs), t.frames[t.curr]);
    }
  }

  /** A termination removes only the activation it names. */
  ghost predicate Faithful(s: State, op: Op)
    requires Running(s) && Allowed(s, op)
  {
    op.DoTerminate? ==> GuardTells(s, op.act)
  }

  /**
   A step from a running state that does not stop the kernel ends in a running state, unless it is a
   termination in which the guard of `sched_delete` misleads; answers are never taken back.
   */
  lemma StepIff(s: State, op: Op)
    requires Running(s) && Allowed(s, op)
    ensures var o := Step(s, op); o.Goes? ==> (Running(o.s) <==> Faithful(s, op)) && s.answered <= o.s.answered
  {
    hide CCall, CReturn, Register, Terminate, Interrupts, Reschedule, Inv;
    match op
    case DoCall(regs, kind, dest, storeOk, idc) => CCallKeeps(s, regs, kind, dest, storeOk, idc);
    case DoReturn(regs) => CReturnKeeps(s, regs);
    case DoRegister(frame) => RegisterStep(s, frame);
    case DoTerminate(a) => TerminateIff(s, a);
    case DoInterrupts(pending, child) => InterruptsKeep(s, pending, child, 0);
    case DoReschedule =>
      RescheduleKeeps(s, 0);
      RescheduleBooks(s, 0);
  }

  lemma RegisterStep(s: State, frame: Frame)
    requires Running(s)
    ensures var o := Register(s, frame); o.Goes? ==> Running(o.s) && o.s.answered == s.answered
  {
    RegisterKeeps(s, frame);
  }

  // ---------- whole runs ----------

  /** The state after `act_init`: the kernel's own activation, and the first one, runnable and current. */
  function Boot(frames: seq<Frame>, empty: Msg): State
    requires |frames| == MAX_ACTIVATIONS
  {
    var idle := Act(Alive, Waiting, 0);
    State(
      [Act(Terminated, Ended, 0), Act(Alive, Runnable, 0)] + seq(MAX_ACTIVATIONS - 2, _ => idle),
      seq(MAX_ACTIVATIONS, _ => Queue(0, 0, seq(MAX_MSG, _ => empty))), frames,
      seq(MAX_ACTIVATIONS, _ => 0), [1] + seq(MAX_ACTIVATIONS - 1, _ => 0), 0, 1,
      1, 2, 0,
      seq(MAX_ACTIVATIONS, _ => []), seq(MAX_ACTIVATIONS, _ => []), map[], {})
  }

  lemma BootRuns(frames: seq<Frame>, empty: Msg)
    requires |frames| == MAX_ACTIVATIONS
    ensures Running(Boot(frames, empty))
  {
    var s := Boot(frames, empty);
    assert s.acts[0] == Act(Terminated, Ended, 0) && s.acts[1] == Act(Alive, Runnable, 0);
    assert forall a :: 2 <= a < MAX_ACTIVATIONS ==> s.acts[a] == Act(Alive, Waiting, 0);
    forall a | 0 <= a < MAX_ACTIVATIONS ensures MessagesOkFor(s.acts[a], s.queues[a], s.pushed[a], s.popped[a]) {
      assert Pending(s.queues[a]) == [];
    }
  }

  /** From a running state an allowed and faithful operation leads on. */
  ghost predicate StepsTo(s: State, op: Op, t: State) {
    Running(s) ==> Allowed(s, op) && Faithful(s, op) && Step(s, op) == Goes(t)
  }

  /** The states of a run: it starts in a running state, only allowed and faithful operations happen, and it has not stopped. */
  ghost predicate IsRun(ops: seq<Op>, states: seq<State>) {
    && |states| == |ops| + 1 && Running(states[0])
    && forall k :: 0 <= k < |ops| ==> StepsTo(states[k], ops[k], states[k + 1])
  }

  /** Every state of a run satisfies the invariant, and its current activation is runnable. */
  lemma {:induction false} RunsKeepInv(ops: seq<Op>, states: seq<State>, k: nat)
    requires IsRun(ops, states) && k <= |ops|
    ensures Running(states[k])
    decreases k
  {
    hide Running, Allowed, Faithful, Step;
    if k > 0 {
      RunsKeepInv(ops, states, k - 1);
      assert StepsTo(states[k - 1], ops[k - 1], states[k]);
      StepIff(states[k - 1], ops[k - 1]);
    }
  }

  lemma {:induction false} AnswersGrow(ops: seq<Op>, states: seq<State>, j: nat, k: nat)
    requires IsRun(ops, states) && j <= k <= |ops|
    ensures states[j].answered <= states[k].answered
    decreases k
  {
    hide Running, Allowed, Faithful, Step;
    if j < k {
      AnswersGrow(ops, states, j, k - 1);
      RunsKeepInv(ops, states, k - 1);
      assert StepsTo(states[k - 1], ops[k - 1], states[k]);
      StepIff(states[k - 1], ops[k - 1]);
    }
  }

  lemma RunAt(ops: seq<Op>, states: seq<State>, k: nat)
    requires IsRun(ops, states) && k < |ops|
    ensures Running(states[k]) && Allowed(states[k], ops[k]) && Faithful(states[k], ops[k]) && Step(states[k], ops[k]) == Goes(states[k + 1])
  {
    hide Running, Allowed, Faithful, Step;
    RunsKeepInv(ops, states, k);
    assert StepsTo(states[k], ops[k], states[k + 1]);
  }

  /** Operation `k` of a run returned the answer to call `u`. */
  ghost predicate Answers(ops: seq<Op>, k: nat, u: nat) {
    k < |ops| && ops[k].DoReturn? && ops[k].regs.c1.Token? && ops[k].regs.c1.unique == u
  }

  /** The caller of `u` is blocked, and on that call. */
  ghost predicate BlockedOn(s: State, u: nat) {
    && Shape(s) && u in s.issued && s.issued[u] < MAX_ACTIVATIONS
    && s.acts[s.issued[u]].sched == SyncBlock && s.acts[s.issued[u]].expected == u
  }

  /** An accepted return wakes the activation that is blocked on that very call, which had no answer before. */
  lemma AnswerWakes(ops: seq<Op>, states: seq<State>, k: nat, u: nat)
    requires IsRun(ops, states) && Answers(ops, k, u)
    ensures k < |ops| && |states| == |ops| + 1
    ensures BlockedOn(states[k], u) && u !in states[k].answered && u in states[k + 1].answered
  {
    RunAt(ops, states, k);
    var s0, regs := states[k], ops[k].regs;
    CReturnKeeps(s0, regs);
    var s := Enter(s0, regs);
    EnterKeeps(s0, regs);
    assert Accepts(s, regs.c1);
    AnswerKeeps(s, regs.c1);
  }

  /** In every run each synchronous call is answered at most once. */
  lemma AnsweredOnce(ops: seq<Op>, states: seq<State>, j: nat, k: nat, u: nat)
    requires IsRun(ops, states) && Answers(ops, j, u) && Answers(ops, k, u)
    ensures j == k
  {
    hide IsRun, BlockedOn, Answers;
    AnswerWakes(ops, states, j, u);
    AnswerWakes(ops, states, k, u);
    if j < k {
      AnswersGrow(ops, states, j + 1, k);
    } else if k < j {
      AnswersGrow(ops, states, k + 1, j);
    }
  }

  /** In every run the messages an activation has taken are the first ones sent to it, and at most fifteen wait. */
  lemma Delivery(ops: seq<Op>, states: seq<State>, k: nat, a: nat)
    requires IsRun(ops, states) && k <= |ops| && a < MAX_ACTIVATIONS
    ensures Running(states[k])
    ensures states[k].popped[a] <= states[k].pushed[a] && |states[k].pushed[a]| - |states[k].popped[a]| <= MAX_MSG - 1
  {
    RunsKeepInv(ops, states, k);
    var s := states[k];
    assert MessagesOkFor(s.acts[a], s.queues[a], s.pushed[a], s.popped[a]);
    QueueBounds(s.queues[a]);
  }

  // ---------- a run that leaves a stale slot ----------

  /** The second activation is registered and idle, the first one runs. */
  ghost predicate Registered(s: State) {
    && Running(s) && s.unique == 0 && s.next == 3 && s.curr == 1 && s.end == 1 && s.idx == 0 && s.sq[0] == 1
    && s.acts[1].sched == Runnable && s.acts[2] == Act(Alive, Waiting, 0)
    && s.queues[2].start == 0 && s.queues[2].end == 0
  }

  /** It has a message and has become active, behind the first one. */
  ghost predicate Addressed(s: State) {
    && Running(s) && s.unique == 0 && s.next == 3 && s.curr == 1 && s.end == 2 && s.idx == 0 && s.sq[0] == 1 && s.sq[1] == 2 && s.aq[2] == 1
    && s.acts[1].sched == Runnable && s.acts[2].sched == Schedulable
    && s.queues[2].start == 0 && s.queues[2].end == 1
  }

  /** It has taken the message and runs. */
  ghost predicate Serving(s: State) {
    && Running(s) && s.unique == 0 && s.next == 3 && s.curr == 2 && s.end == 2 && s.idx == 1 && s.sq[0] == 1 && s.sq[1] == 2 && s.aq[2] == 1
    && s.acts[1].sched == Runnable && s.acts[2].sched == Runnable
    && s.queues[2].start == 1 && s.queues[2].end == 1
  }

  /** It waits again: out of the prefix, but its slot still names it. */
  ghost predicate Stale(s: State) {
    Running(s) && s.next == 3 && s.end == 1 && s.sq[1] == 2 && s.aq[2] == 1 && s.acts[2].sched == Waiting
  }

  lemma RegisterSecond(frames: seq<Frame>, empty: Msg, frame: Frame) returns (t: State)
    requires |frames| == MAX_ACTIVATIONS
    ensures StepsTo(Boot(frames, empty), DoRegister(frame), t) && Registered(t)
  {
    BootRuns(frames, empty);
    RegisterKeeps(Boot(frames, empty), frame);
    t := Register(Boot(frames, empty), frame).s;
    hide Running;
  }

  lemma SendToSecond(s: State, regs: Frame, idc: nat) returns (t: State)
    requires Registered(s)
    ensures StepsTo(s, DoCall(regs, Send, 2, true, idc), t) && Addressed(t)
  {
    CCallKeeps(s, regs, Send, 2, true, idc);
    EnterKeeps(s, regs);
    SendKeeps(Enter(s, regs), 2, idc, NoToken);
    t := CCall(s, regs, Send, 2, true, idc).s;
    hide Inv;
  }

  lemma SwitchToSecond(s: State) returns (t: State)
    requires Addressed(s)
    ensures StepsTo(s, DoReschedule, t) && Serving(t)
  {
    RescheduleKeeps(s, 0);
    t := Reschedule(s, 0).s;
    hide Inv;
  }

  lemma SecondWaits(s: State, regs: Frame) returns (t: State)
    requires Serving(s) && regs.c1 == NoToken
    ensures StepsTo(s, DoReturn(regs), t) && Stale(t)
  {
    EnterKeeps(s, regs);
    IdleKeeps(Enter(s, regs), 2);
    RescheduleKeeps(A2D(Enter(s, regs), 2, Waiting), 2);
    t := CReturn(s, regs).s;
    hide Inv;
  }

  /** Ending an idle activation would break the invariant. */
  ghost predicate Misleads(s: State, a: nat) {
    && Running(s) && 0 < a < s.next && s.acts[a].sched == Waiting && !GuardTells(s, a)
    && 0 < s.end <= |s.sq| && s.sq[s.end - 1] < |s.aq| && !Inv(End(s, a))
  }

  lemma StaleMisleads(s: State)
    requires Stale(s)
    ensures Misleads(s, 2)
  {
    EndIff(s, 2);
    hide Inv, End;
  }

  /** From boot a run leads to a state in which the guard of `sched_delete` misleads. */
  lemma StaleSlotReached(frames: seq<Frame>, empty: Msg, frame: Frame, idc: nat) returns (ops: seq<Op>, states: seq<State>)
    requires |frames| == MAX_ACTIVATIONS && frame.c1 == NoToken
    ensures IsRun(ops, states) && states[0] == Boot(frames, empty) && Misleads(states[|ops|], 2)
  {
    hide Boot, Running, StepsTo, Registered, Addressed, Serving, Stale, Misleads;
    BootRuns(frames, empty);
    var s1 := RegisterSecond(frames, empty, frame);
    var s2 := SendToSecond(s1, frame, idc);
    var s3 := SwitchToSecond(s2);
    var s4 := SecondWaits(s3, frame);
    StaleMisleads(s4);
    ops := [DoRegister(frame), DoCall(frame, Send, 2, true, idc), DoReschedule, DoReturn(frame)];
    states := [Boot(frames, empty), s1, s2, s3, s4];
  }
}
