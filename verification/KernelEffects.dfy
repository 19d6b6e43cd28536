/**
 What the steps of `KernelModel` do, seen from outside: without the scheduler's two arrays and the
 ring buffers.  Of an activation one sees its status, its registers and the messages sent to it and
 taken by it.  Each step is one of a machine on this view that only says which message goes where,
 whose registers change, and who runs next.
 */
module KernelEffects {
  import opened ActiveQueue
  import opened KernelModel

  datatype View = View(acts: seq<Act>, frames: seq<Frame>, pushed: seq<seq<Msg>>, popped: seq<seq<Msg>>,
    curr: nat, next: nat, unique: nat, issued: map<nat, nat>, answered: set<nat>)
  {
    ghost predicate Valid() {
      && |acts| == |frames| == |pushed| == |popped| == MAX_ACTIVATIONS && curr < MAX_ACTIVATIONS && next <= MAX_ACTIVATIONS
      && forall a :: 0 <= a < MAX_ACTIVATIONS ==> Sensible(a)
    }

    /** What has been taken was sent; who is schedulable has a message to take. */
    ghost predicate Sensible(a: nat)
      requires a < |acts| && a < |pushed| && a < |popped|
    {
      popped[a] <= pushed[a] && (acts[a].sched == Schedulable ==> |popped[a]| < |pushed[a]|)
    }

    predicate Active(a: nat)
      requires a < |acts|
    {
      acts[a].sched == Schedulable || acts[a].sched == Runnable
    }

    /** How many messages wait for `a`. */
    function Waiting(a: nat): int
      requires a < |pushed| && a < |popped|
    {
      |pushed[a]| - |popped[a]|
    }

    function Marked(a: nat, to: Sched): View
      requires a < |acts|
    {
      this.(acts := acts[a := acts[a].(sched := to)])
    }

    function Entered(regs: Frame): View
      requires curr < |frames|
    {
      this.(frames := frames[curr := regs])
    }

    /** `m` is sent to `dest`, which wakes up if it waits. */
    function Posted(dest: nat, m: Msg): View
      requires dest < |acts| && dest < |pushed|
    {
      var v := this.(pushed := pushed[dest := pushed[dest] + [m]]);
      if acts[dest].sched == Sched.Waiting then v.Marked(dest, Schedulable) else v
    }

    /** `a` stops running until somebody picks it, or until a message comes if it has none. */
    function Rested(a: nat): View
      requires a < |acts| && a < |pushed| && a < |popped|
    {
      Marked(a, if Waiting(a) == 0 then Sched.Waiting else Schedulable)
    }

    /** `c` runs; if it had a message to take, with the registers of the oldest one, and its own `v1`. */
    function Started(c: nat): View
      requires c < |acts| && c < |pushed| && c < |popped| && c < |frames| && (acts[c].sched == Schedulable ==> Waiting(c) > 0)
    {
      if acts[c].sched == Schedulable then
        var m := pushed[c][|popped[c]|];
        Marked(c, Runnable).(frames := frames[c := Frame(m.args, frames[c].v1, m.idc, m.c1)],
          popped := popped[c := popped[c] + [m]], curr := c)
      else this.(curr := c)
    }

    /** `hint` runs next if it is active, else some other active activation. */
    ghost predicate HandsOver(hint: nat, w: View)
      requires Valid() && hint < MAX_ACTIVATIONS
    {
      && w.curr < MAX_ACTIVATIONS && Active(w.curr) && (hint != 0 && Active(hint) ==> w.curr == hint)
      && Sensible(w.curr) && w == Started(w.curr)
    }
  }

  /** What one sees of a state. */
  ghost function Seen(s: State): View {
    View(s.acts, s.frames, s.pushed, s.popped, s.curr, s.next, s.unique, s.issued, s.answered)
  }

  lemma SeenValid(s: State)
    requires Inv(s)
    ensures Seen(s).Valid()
    ensures forall a :: 0 <= a < MAX_ACTIVATIONS ==> Room(s, a)
  {
    hide ActiveOk, CallsOk, NumbersOk;
    forall a | 0 <= a < MAX_ACTIVATIONS ensures Seen(s).Sensible(a) && Room(s, a) {
      assert MessagesOkFor(s.acts[a], s.queues[a], s.pushed[a], s.popped[a]);
      QueueBounds(s.queues[a]);
    }
  }

  /** The ring buffer of `a` is full, or empty, exactly if fifteen messages wait, or none. */
  ghost predicate Room(s: State, a: nat)
    requires Shape(s) && a < MAX_ACTIVATIONS
  {
    && (Full(s.queues[a]) <==> Seen(s).Waiting(a) == MAX_MSG - 1)
    && (Empty(s.queues[a]) <==> Seen(s).Waiting(a) == 0)
  }

  // ---------- the elementary changes ----------

  lemma MarkedActive(s: State, a: nat, to: Sched)
    requires a < |s.aq| && s.end < |s.sq| && a < |s.acts|
    ensures Seen(D2A(s, a, to)) == Seen(s).Marked(a, to)
  {
  }

  lemma MarkedInactive(s: State, a: nat, to: Sched)
    requires CanDel(s, a)
    ensures Seen(A2D(s, a, to)) == Seen(s).Marked(a, to)
  {
  }

  lemma PushPosts(s: State, dest: nat, m: Msg)
    requires Shape(s) && dest < MAX_ACTIVATIONS && s.queues[dest].end < |s.queues[dest].msg|
    requires s.acts[dest].sched == Waiting ==> s.end < |s.sq|
    ensures Seen(Push(s, dest, m)) == Seen(s).Posted(dest, m)
  {
  }

  /** `sched_schedule`: the oldest waiting message goes into the registers. */
  lemma ScheduleStarts(s: State, a: nat)
    requires Inv(s) && a < MAX_ACTIVATIONS && s.acts[a].sched == Schedulable
    ensures s.queues[a].start < |s.queues[a].msg| && Seen(s).Sensible(a)
    ensures Seen(Schedule(s, a).(curr := a)) == Seen(s).Started(a)
  {
    hide ActiveOk, CallsOk, NumbersOk;
    assert MessagesOkFor(s.acts[a], s.queues[a], s.pushed[a], s.popped[a]);
    GetTakes(s.queues[a]);
  }

  /** So it finds there just what was sent, `v1` stays, and nobody else's registers change. */
  lemma ScheduleLoads(s: State, a: nat)
    requires Inv(s) && a < MAX_ACTIVATIONS && s.acts[a].sched == Schedulable
    ensures QueueShape(s.queues[a]) && Pending(s.queues[a]) != [] && s.queues[a].start < |s.queues[a].msg|
    ensures var t, m := Schedule(s, a), Pending(s.queues[a])[0];
      && t.frames == s.frames[a := Frame(m.args, s.frames[a].v1, m.idc, m.c1)]
      && t.popped == s.popped[a := s.popped[a] + [m]] && t.pushed == s.pushed
      && t.acts == s.acts[a := s.acts[a].(sched := Runnable)]
      && QueueShape(t.queues[a]) && Pending(t.queues[a]) == Pending(s.queues[a])[1..]
  {
    hide ActiveOk, CallsOk, NumbersOk, Pending;
    assert MessagesOkFor(s.acts[a], s.queues[a], s.pushed[a], s.popped[a]);
    QueueBounds(s.queues[a]);
    GetTakes(s.queues[a]);
  }

  lemma SwitchStarts(s: State, a: nat)
    requires Inv(s) && a < MAX_ACTIVATIONS && IsActive(s.acts[a].sched)
    ensures Seen(s).Sensible(a) && Seen(SwitchTo(s, a)) == Seen(s).Started(a)
  {
    SeenValid(s);
    if s.acts[a].sched == Schedulable {
      ScheduleStarts(s, a);
    }
    hide Inv, Schedule;
  }

  /** `sched_reschedule`: the hint if it is active, else the next of the active ones in turn. */
  lemma RescheduleHandsOver(s: State, hint: nat)
    requires Inv(s) && hint < MAX_ACTIVATIONS
    ensures Seen(s).Valid()
    ensures var o := Reschedule(s, hint); o.Goes? ==> Seen(s).HandsOver(hint, Seen(o.s))
    ensures var o := Reschedule(s, hint);
      o.Goes? && !(hint != 0 && IsActive(s.acts[hint].sched)) ==>
        s.end > 0 && s.end <= |s.sq| && o.s.idx == NextIdx(s.idx, s.end) && o.s.curr == s.sq[o.s.idx]
  {
    SeenValid(s);
    PickIsActive(s);
    if hint != 0 && IsActive(s.acts[hint].sched) {
      SwitchStarts(s, hint);
      SwitchKeeps(s, hint);
    } else if s.end > 0 {
      var t, h := s.(idx := PickIdx(s)), s.sq[PickIdx(s)];
      IdxKeeps(s, PickIdx(s));
      SwitchStarts(t, h);
      SwitchKeeps(t, h);
    }
    hide Inv, Schedule;
  }

  lemma IdleRests(s: State, a: nat)
    requires Inv(s) && a < MAX_ACTIVATIONS && s.acts[a].sched == Runnable
    ensures Seen(s).Valid() && Seen(Idle(s, a)) == Seen(s).Rested(a)
  {
    SeenValid(s);
    IdleKeeps(s, a);
    assert Room(s, a);
    if Empty(s.queues[a]) { MarkedInactive(s, a, Waiting); }
    hide Inv, A2D;
  }

  lemma WaitHandsOver(s: State, a: nat, hint: nat)
    requires Inv(s) && a < MAX_ACTIVATIONS && hint < MAX_ACTIVATIONS && s.acts[a].sched == Runnable
    ensures Seen(s).Valid() && Seen(s).Rested(a).Valid()
    ensures var o := Wait(s, a, hint); o.Goes? ==> Seen(s).Rested(a).HandsOver(hint, Seen(o.s))
  {
    IdleRests(s, a);
    RescheduleHandsOver(Idle(s, a), hint);
    hide Inv, Reschedule, Idle;
  }

  /** After boot only the first activation can run, nobody has a message, and no call is open. */
  lemma BootIs(frames: seq<Frame>, empty: Msg, a: nat)
    requires |frames| == MAX_ACTIVATIONS && a < MAX_ACTIVATIONS
    ensures var v := Seen(Boot(frames, empty));
      && |v.acts| == |v.pushed| == |v.popped| == MAX_ACTIVATIONS && v.frames == frames && v.curr == 1 && v.next == 2
      && (v.Active(a) <==> a == 1) && v.pushed[a] == v.popped[a] == [] && v.issued == map[] && v.unique == 0
      && (v.acts[a].status == Terminated <==> a == 0) && v.acts[a].sched != SyncBlock
  {
  }

  // ---------- the machine on views ----------

  datatype Result = Stops | To(w: View)

  ghost function SeenAfter(o: Outcome): Result {
    match o case Halted => Stops case Goes(t) => To(Seen(t))
  }

  /** Somebody active runs on, or the kernel stops because nobody is. */
  ghost predicate RunsOn(v: View, hint: nat, r: Result)
    requires v.Valid() && hint < MAX_ACTIVATIONS
  {
    match r
    case Stops => forall a :: 0 <= a < MAX_ACTIVATIONS ==> !v.Active(a)
    case To(w) => v.HandsOver(hint, w)
  }

  lemma RescheduleRunsOn(s: State, hint: nat)
    requires Inv(s) && hint < MAX_ACTIVATIONS
    ensures Seen(s).Valid() && RunsOn(Seen(s), hint, SeenAfter(Reschedule(s, hint)))
  {
    RescheduleHandsOver(s, hint);
    RescheduleKeeps(s, hint);
    hide Inv, Reschedule;
  }

  lemma WaitRunsOn(s: State, a: nat, hint: nat)
    requires Inv(s) && a < MAX_ACTIVATIONS && hint < MAX_ACTIVATIONS && s.acts[a].sched == Runnable
    ensures Seen(s).Valid() && Seen(s).Rested(a).Valid() && RunsOn(Seen(s).Rested(a), hint, SeenAfter(Wait(s, a, hint)))
  {
    IdleRests(s, a);
    RescheduleRunsOn(Idle(s, a), hint);
    hide Inv, Reschedule, Idle;
  }

  /** A call reaches its callee if it is a known one, of an identifier that may be stored to, and the callee lives. */
  predicate Reaches(v: View, kind: Call, dest: nat, storeOk: bool)
    requires dest < |v.acts|
  {
    kind != Unknown && storeOk && v.acts[dest].status == Alive
  }

  /** The token that travels with a call: a fresh number for a synchronous one. */
  function TokenOf(v: View, kind: Call): Token {
    if kind == SyncCall then Token(v.curr, v.unique + 1) else NoToken
  }

  function Numbered(v: View): View
    requires v.curr < |v.acts|
  {
    v.(unique := v.unique + 1, issued := v.issued[v.unique + 1 := v.curr],
       acts := v.acts[v.curr := v.acts[v.curr].(expected := v.unique + 1)])
  }

  /** The message with which a call that reaches its callee is sent, or the mark of failure in `v0` if there is no room. */
  function Sent(v: View, regs: Frame, kind: Call, dest: nat, idc: nat): View
    requires v.Valid() && dest < MAX_ACTIVATIONS
  {
    if v.Waiting(dest) == MAX_MSG - 1 then v.Entered(regs.(args := regs.args.(v0 := 0)))
    else v.Entered(regs).Posted(dest, Msg(regs.args, idc, TokenOf(v, kind)))
  }

  ghost predicate CallMoves(v: View, regs: Frame, kind: Call, dest: nat, storeOk: bool, idc: nat, r: Result)
    requires v.Valid() && dest < MAX_ACTIVATIONS
  {
    if !Reaches(v, kind, dest, storeOk) then r == To(v.Entered(regs))
    else
      var w := Sent(v, regs, kind, dest, idc);
      match kind
      case SyncCall =>
        var b := Numbered(w).Marked(v.curr, SyncBlock);
        if v.Waiting(dest) == MAX_MSG - 1 then r == Stops else b.Valid() && RunsOn(b, dest, r)
      case SendSwitch => w.Rested(v.curr).Valid() && RunsOn(w.Rested(v.curr), dest, r)
      case _ => r == To(w)
  }

  /** The caller named in the token goes on with the values in the registers of the callee. */
  function Answered(v: View, regs: Frame, t: Token): View
    requires t.Token? && t.caller < |v.acts| && t.caller < |v.frames|
  {
    var f := v.frames[t.caller];
    v.Marked(t.caller, Runnable).(
      frames := v.frames[t.caller := Frame(f.args.(c3 := regs.args.c3, v0 := regs.args.v0), regs.v1, f.idc, f.c1)],
      answered := v.answered + {t.unique})
  }

  ghost predicate ReturnMoves(v: View, regs: Frame, r: Result)
    requires v.Valid()
  {
    var e := v.Entered(regs);
    match regs.c1
    case NoToken => e.Rested(v.curr).Valid() && RunsOn(e.Rested(v.curr), v.curr, r)
    case Token(c, u) =>
      c < MAX_ACTIVATIONS &&
      if v.acts[c].sched == SyncBlock && v.acts[c].expected == u < 0x1000_0000 then
        var w := Answered(e, regs, regs.c1).Rested(v.curr);
        w.Valid() && RunsOn(w, c, r)
      else r == Stops
  }

  ghost predicate TerminateMoves(v: View, a: nat, r: Result)
    requires v.Valid() && a < MAX_ACTIVATIONS
  {
    var w := v.(acts := v.acts[a := Act(Terminated, Ended, v.acts[a].expected)]);
    if a == v.curr then w.Valid() && RunsOn(w, 0, r)
    else r == To(w.(frames := v.frames[v.curr := v.frames[v.curr].(args := v.frames[v.curr].args.(v0 := 0))]))
  }

  ghost predicate RegisterMoves(v: View, frame: Frame, r: Result)
    requires v.Valid()
  {
    if v.next == MAX_ACTIVATIONS then r == Stops
    else r == To(v.(acts := v.acts[v.next := Act(Alive, Waiting, v.acts[v.next].expected)],
                    frames := v.frames[v.next := frame], next := v.next + 1))
  }

  /** `kernel_ccall`: what is sent to whom, what becomes of the caller, and who runs. */
  lemma CallIs(s: State, regs: Frame, kind: Call, dest: nat, storeOk: bool, idc: nat)
    requires Running(s) && 0 < dest < s.next && (kind == SyncCall ==> s.unique + 1 < CALL_NUMBERS)
    ensures Seen(s).Valid() && CallMoves(Seen(s), regs, kind, dest, storeOk, idc, SeenAfter(CCall(s, regs, kind, dest, storeOk, idc)))
  {
    hide ActiveOk, MessagesOk, CallsOk, NumbersOk, Reschedule, A2D, Wait, SendTo, Sent, Numbered, View.Valid, View.Marked, View.Rested, RunsOn;
    SeenValid(s);
    EnterKeeps(s, regs);
    if Reaches(Seen(s), kind, dest, storeOk) {
      if kind == SyncCall {
        SyncCallIs(s, regs, dest, storeOk, idc);
      } else {
        SendIs(s, regs, kind, dest, storeOk, idc);
      }
    }
  }

  lemma SendIs(s: State, regs: Frame, kind: Call, dest: nat, storeOk: bool, idc: nat)
    requires Running(s) && 0 < dest < s.next && kind != SyncCall && Reaches(Seen(s), kind, dest, storeOk)
    ensures Seen(s).Valid() && CallMoves(Seen(s), regs, kind, dest, storeOk, idc, SeenAfter(CCall(s, regs, kind, dest, storeOk, idc)))
  {
    SeenValid(s);
    EnterKeeps(s, regs);
    assert Room(s, dest);
    var e := Enter(s, regs);
    hide ActiveOk, MessagesOk, CallsOk, NumbersOk, Reschedule, A2D, Wait, SendTo;
    SendKeeps(e, dest, idc, NoToken);
    SendPosts(e, dest, idc, NoToken);
    assert Seen(SendTo(e, dest, idc, NoToken)) == Sent(Seen(s), regs, kind, dest, idc);
    hide Sent, View.Valid, View.Marked, View.Rested, RunsOn;
    if kind == SendSwitch {
      WaitRunsOn(SendTo(e, dest, idc, NoToken), s.curr, dest);
    }
  }

  lemma SyncCallIs(s: State, regs: Frame, dest: nat, storeOk: bool, idc: nat)
    requires Running(s) && 0 < dest < s.next && s.unique + 1 < CALL_NUMBERS && Reaches(Seen(s), SyncCall, dest, storeOk)
    ensures Seen(s).Valid() && CallMoves(Seen(s), regs, SyncCall, dest, storeOk, idc, SeenAfter(CCall(s, regs, SyncCall, dest, storeOk, idc)))
  {
    hide ActiveOk, MessagesOk, CallsOk, NumbersOk, Reschedule, A2D, SendTo, LatestOpen, Full;
    hide Sent, Numbered, View.Valid, View.Marked, RunsOn;
    SeenValid(s);
    assert Room(s, dest);
    EnterKeeps(s, regs);
    NewCallKeeps(Enter(s, regs), s.curr);
    if !Full(s.queues[dest]) {
      SyncSent(s, regs, dest, idc);
      BlockRunsOn(SendTo(NewCall(Enter(s, regs), s.curr), dest, idc, Token(s.curr, s.unique + 1)), s.curr, dest);
    }
  }

  /** The state of a synchronous call when its message has been sent. */
  lemma SyncSent(s: State, regs: Frame, dest: nat, idc: nat)
    requires Running(s) && 0 < dest < s.next && s.unique + 1 < CALL_NUMBERS && !Full(s.queues[dest]) && Seen(s).Valid()
    ensures Running(Enter(s, regs))
    ensures var n := NewCall(Enter(s, regs), s.curr);
      && Running(n) && n.queues[dest] == s.queues[dest]
      && var v := SendTo(n, dest, idc, Token(s.curr, s.unique + 1));
      && Running(v) && v.curr == s.curr && LatestOpen(v, s.curr)
      && Seen(v) == Numbered(Sent(Seen(s), regs, SyncCall, dest, idc))
  {
    EnterKeeps(s, regs);
    hide ActiveOk, MessagesOk, CallsOk, NumbersOk, SendTo, Sent, Numbered;
    var e, t := Enter(s, regs), Token(s.curr, s.unique + 1);
    NewCallKeeps(e, e.curr);
    var n := NewCall(e, e.curr);
    SendKeeps(n, dest, idc, t);
    SendBooks(n, dest, idc, t);
    SendPosts(n, dest, idc, t);
    NumberedSent(s, regs, dest, idc);
  }

  lemma BlockRunsOn(s: State, a: nat, hint: nat)
    requires Inv(s) && a < MAX_ACTIVATIONS && hint < MAX_ACTIVATIONS && s.acts[a].sched == Runnable && LatestOpen(s, a)
    ensures CanDel(s, a) && Inv(A2D(s, a, SyncBlock))
    ensures var b := Seen(s).Marked(a, SyncBlock); b.Valid() && RunsOn(b, hint, SeenAfter(Reschedule(A2D(s, a, SyncBlock), hint)))
  {
    BlockKeeps(s, a);
    MarkedInactive(s, a, SyncBlock);
    RescheduleRunsOn(A2D(s, a, SyncBlock), hint);
    hide Inv, Reschedule, A2D, RunsOn;
  }

  lemma NumberedSent(s: State, regs: Frame, dest: nat, idc: nat)
    requires Running(s) && 0 < dest < s.next && s.unique + 1 < CALL_NUMBERS && !Full(s.queues[dest]) && Seen(s).Valid()
    ensures var n := NewCall(Enter(s, regs), s.curr);
      Seen(n).Posted(dest, Msg(regs.args, idc, Token(s.curr, s.unique + 1))) == Numbered(Sent(Seen(s), regs, SyncCall, dest, idc))
  {
    hide ActiveOk, MessagesOk, CallsOk, NumbersOk, Full, View.Posted, View.Valid, View.Sensible;
    SeenValid(s);
    assert Room(s, dest);
    NumberedIs(s, regs);
    hide Numbered, NewCall;
    PostedNumbered(Seen(s).Entered(regs), dest, Msg(regs.args, idc, Token(s.curr, s.unique + 1)));
  }

  lemma NumberedIs(s: State, regs: Frame)
    requires Running(s) && s.unique + 1 < CALL_NUMBERS
    ensures Seen(NewCall(Enter(s, regs), s.curr)) == Numbered(Seen(s).Entered(regs))
  {
    hide ActiveOk, MessagesOk, CallsOk, NumbersOk;
    NewNumber(s);
  }

  /** Taking a number and sending do not disturb each other. */
  lemma PostedNumbered(v: View, dest: nat, m: Msg)
    requires dest < |v.acts| == |v.pushed| && v.curr < |v.acts|
    ensures Numbered(v).Posted(dest, m) == Numbered(v.Posted(dest, m))
  {
  }

  lemma SendPosts(s: State, dest: nat, idc: nat, c1: Token)
    requires Running(s) && 0 < dest < s.next
    ensures var m := Msg(s.frames[s.curr].args, idc, c1);
      Seen(SendTo(s, dest, idc, c1)) ==
        if Full(s.queues[dest]) then Seen(s).Entered(s.frames[s.curr].(args := m.args.(v0 := 0))) else Seen(s).Posted(dest, m)
  {
    var m := Msg(s.frames[s.curr].args, idc, c1);
    if !Full(s.queues[dest]) {
      PushKeeps(s, dest, m);
      PushPosts(s, dest, m);
    }
    hide Inv, Push;
  }

  /** `kernel_creturn`: which answers are taken, what the caller finds in its registers, and who runs. */
  lemma ReturnIs(s: State, regs: Frame)
    requires Running(s) && Issued(s, regs.c1)
    ensures Seen(s).Valid() && ReturnMoves(Seen(s), regs, SeenAfter(CReturn(s, regs)))
  {
    hide ActiveOk, MessagesOk, CallsOk, NumbersOk, Wait, Answer, Accepts, Issued, RunsOn, Answered, View.Valid, View.Rested;
    SeenValid(s);
    EnterKeeps(s, regs);
    IssuedStays(s, regs);
    var e := Enter(s, regs);
    if regs.c1.NoToken? {
      WaitRunsOn(e, s.curr, s.curr);
    } else {
      TakenIff(e, regs.c1);
      if Accepts(e, regs.c1) {
        AnswerIs(e, regs.c1);
        WaitRunsOn(Answer(e, regs.c1), s.curr, regs.c1.caller);
      }
    }
  }

  lemma IssuedStays(s: State, regs: Frame)
    requires s.curr < |s.frames| && Issued(s, regs.c1)
    ensures Issued(Enter(s, regs), regs.c1)
  {
  }

  /** The answers taken are those to the number expected, if 28 bits hold it. */
  lemma TakenIff(s: State, t: Token)
    requires Running(s) && Issued(s, t) && t.Token?
    ensures t.caller < |s.acts| == MAX_ACTIVATIONS
    ensures Accepts(s, t) <==> s.acts[t.caller].sched == SyncBlock && s.acts[t.caller].expected == t.unique < 0x1000_0000
  {
    hide ActiveOk, MessagesOk, CallsOk, NumbersOk, Issued;
    IssuedBelow(s, t);
    if Accepts(s, t) {
      AnswerFacts(s, t);
    } else if s.acts[t.caller].sched == SyncBlock && s.acts[t.caller].expected == t.unique {
      AnswerAcceptedIff(s, t.caller, t.unique);
    }
    hide Accepts;
  }

  lemma IssuedBelow(s: State, t: Token)
    requires Inv(s) && Issued(s, t) && t.Token?
    ensures t.caller < |s.acts| == MAX_ACTIVATIONS
  {
    hide ActiveOk, MessagesOk, NumbersOk;
  }

  lemma AnswerIs(s: State, t: Token)
    requires Running(s) && t.Token? && Issued(s, t) && t.caller < MAX_ACTIVATIONS && Accepts(s, t)
    ensures s.end < |s.sq| && Seen(Answer(s, t)) == Answered(Seen(s), s.frames[s.curr], t)
    ensures Running(Answer(s, t)) && t.caller != s.curr && Answer(s, t).curr == s.curr
  {
    AnswerKeeps(s, t);
    AnswerFacts(s, t);
    hide Inv;
  }

  /** `act_terminate`: the activation is dead, and if it ended itself another one runs. */
  lemma TerminateIs(s: State, a: nat)
    requires Running(s) && 0 < a < s.next
    ensures Seen(s).Valid() && a < MAX_ACTIVATIONS && TerminateMoves(Seen(s), a, SeenAfter(Terminate(s, a)))
  {
    SeenValid(s);
    EndIff(s, a);
    CurrentTells(s);
    if a == s.curr {
      RescheduleRunsOn(End(s, a), 0);
    }
    hide Inv, Reschedule, Delete, RunsOn;
  }

  /** `act_register`: the next free slot, with the given registers, waiting. */
  lemma RegisterIs(s: State, frame: Frame)
    requires Running(s)
    ensures Seen(s).Valid() && RegisterMoves(Seen(s), frame, SeenAfter(Register(s, frame)))
  {
    SeenValid(s);
    hide ActiveOk, MessagesOk, CallsOk, NumbersOk;
  }

  /** Line `i` writes two registers of the kernel's own frame and sends them to its handler. */
  function LineTold(v: View, i: int, dest: nat): View
    requires |v.frames| == |v.acts| == |v.pushed| == MAX_ACTIVATIONS && dest < MAX_ACTIVATIONS
  {
    var args := v.frames[0].args.(v0 := -3, a0 := i);
    v.(frames := v.frames[0 := v.frames[0].(args := args)]).Posted(dest, Msg(args, 0, NoToken))
  }

  ghost predicate InterruptsMove(v: View, pending: seq<bool>, child: seq<nat>, i: nat, r: Result)
    requires Lines(pending, child) && i <= LINES
    decreases LINES - i
  {
    if i == LINES then r == To(v)
    else if !pending[i] || child[i] == 0 then InterruptsMove(v, pending, child, i + 1, r)
    else
      v.Valid() && child[i] < MAX_ACTIVATIONS &&
      if v.Waiting(child[i]) == MAX_MSG - 1 then r == Stops
      else InterruptsMove(LineTold(v, i, child[i]), pending, child, i + 1, r)
  }

  lemma InterruptIs(s: State, i: int, dest: nat)
    requires Running(s) && 0 < dest < s.next
    ensures Seen(s).Valid() && dest < MAX_ACTIVATIONS
    ensures SeenAfter(Interrupt(s, i, dest)) ==
      if Seen(s).Waiting(dest) == MAX_MSG - 1 then Stops else To(LineTold(Seen(s), i, dest))
  {
    SeenValid(s);
    assert Room(s, dest);
    if !Full(s.queues[dest]) {
      InterruptKeeps(s, i, dest);
      var f := s.frames[0];
      var t := s.(frames := s.frames[0 := f.(args := f.args.(v0 := -3, a0 := i))]);
      PushPosts(t, dest, Msg(t.frames[0].args, 0, NoToken));
    }
    hide ActiveOk, MessagesOk, CallsOk, NumbersOk, Push;
  }

  lemma {:induction false} InterruptsAre(s: State, pending: seq<bool>, child: seq<nat>, i: nat)
    requires Running(s) && Lines(pending, child) && Handlers(s, child) && i <= LINES
    ensures InterruptsMove(Seen(s), pending, child, i, SeenAfter(Interrupts(s, pending, child, i)))
    decreases LINES - i
  {
    hide Inv, Interrupt, LineTold, View.Valid;
    if i < LINES {
      if !pending[i] || child[i] == 0 {
        InterruptsAre(s, pending, child, i + 1);
      } else {
        InterruptStep(s, i, child[i]);
        InterruptIs(s, i, child[i]);
        var o := Interrupt(s, i, child[i]);
        if o.Goes? { InterruptsAre(o.s, pending, child, i + 1); }
      }
    }
  }

  // ---------- the refinement ----------

  /** What operation `op` does to a view. */
  ghost predicate Moves(v: View, op: Op, r: Result)
    requires v.Valid()
  {
    match op
    case DoCall(regs, kind, dest, storeOk, idc) => dest < MAX_ACTIVATIONS && CallMoves(v, regs, kind, dest, storeOk, idc, r)
    case DoReturn(regs) => ReturnMoves(v, regs, r)
    case DoRegister(frame) => RegisterMoves(v, frame, r)
    case DoTerminate(a) => a < MAX_ACTIVATIONS && TerminateMoves(v, a, r)
    case DoInterrupts(pending, child) => Lines(pending, child) && InterruptsMove(v, pending, child, 0, r)
    case DoReschedule => RunsOn(v, 0, r)
  }

  /** Every step of the kernel is a step of the machine on views: arrays and ring buffers compute nothing else. */
  lemma StepRefines(s: State, op: Op)
    requires Running(s) && Allowed(s, op)
    ensures Seen(s).Valid() && Moves(Seen(s), op, SeenAfter(Step(s, op)))
  {
    SeenValid(s);
    assert s.next <= MAX_ACTIVATIONS;
    hide Inv, CCall, CReturn, Register, Terminate, Interrupts, Reschedule, View.Valid;
    hide CallMoves, ReturnMoves, RegisterMoves, TerminateMoves, InterruptsMove, RunsOn;
    match op
    case DoCall(regs, kind, dest, storeOk, idc) => CallIs(s, regs, kind, dest, storeOk, idc);
    case DoReturn(regs) => ReturnIs(s, regs);
    case DoRegister(frame) => RegisterIs(s, frame);
    case DoTerminate(a) => TerminateIs(s, a);
    case DoInterrupts(pending, child) => InterruptsAre(s, pending, child, 0);
    case DoReschedule => RescheduleRunsOn(s, 0);
  }

  // ---------- what callers and callees see ----------

  /** Only a call that reaches its callee sends anything, and exactly its own message if there is room. */
  lemma CallSends(s: State, regs: Frame, kind: Call, dest: nat, storeOk: bool, idc: nat)
    requires Running(s) && 0 < dest < s.next && (kind == SyncCall ==> s.unique + 1 < CALL_NUMBERS)
    requires CCall(s, regs, kind, dest, storeOk, idc).Goes?
    ensures |s.pushed| == |s.popped| == |s.acts| == MAX_ACTIVATIONS && dest < MAX_ACTIVATIONS
    ensures var t := CCall(s, regs, kind, dest, storeOk, idc).s;
      var tok := if kind == SyncCall then Token(s.curr, s.unique + 1) else NoToken;
      t.pushed == if Reaches(Seen(s), kind, dest, storeOk) && |s.pushed[dest]| - |s.popped[dest]| < MAX_MSG - 1
                  then s.pushed[dest := s.pushed[dest] + [Msg(regs.args, idc, tok)]] else s.pushed
  {
    hide ActiveOk, MessagesOk, CallsOk, NumbersOk, CCall, RunsOn;
    CallIs(s, regs, kind, dest, storeOk, idc);
    var t := CCall(s, regs, kind, dest, storeOk, idc).s;
    var v, w := Seen(s), Sent(Seen(s), regs, kind, dest, idc);
    SentPushes(v, regs, kind, dest, idc);
    WaitingCount(s, dest);
    hide Sent;
    if Reaches(v, kind, dest, storeOk) {
      if kind == SyncCall {
        RunningSends(Numbered(w).Marked(s.curr, SyncBlock), dest, Seen(t));
      } else if kind == SendSwitch {
        RunningSends(w.Rested(s.curr), dest, Seen(t));
      }
      assert t.pushed == w.pushed;
    }
  }

  lemma SentPushes(v: View, regs: Frame, kind: Call, dest: nat, idc: nat)
    requires v.Valid() && dest < MAX_ACTIVATIONS
    ensures var w := Sent(v, regs, kind, dest, idc);
      && |w.acts| == |w.pushed| == |w.popped| == MAX_ACTIVATIONS
      && w.pushed == if v.Waiting(dest) == MAX_MSG - 1 then v.pushed
                     else v.pushed[dest := v.pushed[dest] + [Msg(regs.args, idc, TokenOf(v, kind))]]
  {
  }

  lemma RunningSends(v: View, hint: nat, w: View)
    requires v.Valid() && hint < MAX_ACTIVATIONS && RunsOn(v, hint, To(w))
    ensures w.pushed == v.pushed && w.next == v.next && w.unique == v.unique && w.issued == v.issued && w.answered == v.answered
    ensures |w.acts| == |w.frames| == |w.popped| == MAX_ACTIVATIONS && w.curr < MAX_ACTIVATIONS
    ensures v.Active(w.curr) && w.acts == v.Marked(w.curr, Runnable).acts
    ensures forall a :: 0 <= a < MAX_ACTIVATIONS && a != w.curr ==> w.frames[a] == v.frames[a] && w.popped[a] == v.popped[a]
  {
    if v.acts[w.curr].sched == Runnable {
      assert v.Marked(w.curr, Runnable).acts == v.acts;
    }
  }

  /** A synchronous caller is blocked on its own number; the callee, if it can run, is next. */
  lemma CallBlocks(s: State, regs: Frame, dest: nat, storeOk: bool, idc: nat)
    requires Running(s) && 0 < dest < s.next && s.unique + 1 < CALL_NUMBERS
    requires CCall(s, regs, SyncCall, dest, storeOk, idc).Goes? && Seen(s).Valid() && Reaches(Seen(s), SyncCall, dest, storeOk)
    ensures var t := CCall(s, regs, SyncCall, dest, storeOk, idc).s;
      && |t.acts| == |t.frames| == MAX_ACTIVATIONS && t.unique == s.unique + 1 && t.issued == s.issued[t.unique := s.curr]
      && t.curr != s.curr && t.acts[s.curr] == Act(s.acts[s.curr].status, SyncBlock, s.unique + 1) && t.frames[s.curr] == regs
      && (dest != s.curr && s.acts[dest].sched in {Waiting, Schedulable, Runnable} ==> t.curr == dest)
  {
    hide ActiveOk, MessagesOk, CallsOk, NumbersOk, CCall, RunsOn, Sent;
    CallIs(s, regs, SyncCall, dest, storeOk, idc);
    var t := CCall(s, regs, SyncCall, dest, storeOk, idc).s;
    assert Seen(s).Waiting(dest) != MAX_MSG - 1;
    SentLeaves(Seen(s), regs, SyncCall, dest, idc);
    var b := Numbered(Sent(Seen(s), regs, SyncCall, dest, idc)).Marked(s.curr, SyncBlock);
    RunningSends(b, dest, Seen(t));
    HintRuns(b, dest, Seen(t));
  }

  /** What sending leaves alone. */
  lemma SentLeaves(v: View, regs: Frame, kind: Call, dest: nat, idc: nat)
    requires v.Valid() && 0 < dest < MAX_ACTIVATIONS && v.Waiting(dest) != MAX_MSG - 1
    ensures var w := Sent(v, regs, kind, dest, idc);
      && |w.acts| == |w.frames| == MAX_ACTIVATIONS && w.curr == v.curr && w.frames == v.frames[v.curr := regs]
      && w.unique == v.unique && w.issued == v.issued && w.popped == v.popped && w.answered == v.answered
      && (forall a :: 0 <= a < MAX_ACTIVATIONS && a != dest ==> w.acts[a] == v.acts[a])
      && w.acts[dest] == v.acts[dest].(sched := if v.acts[dest].sched == Waiting then Schedulable else v.acts[dest].sched)
  {
  }

  lemma HintRuns(v: View, hint: nat, w: View)
    requires v.Valid() && hint < MAX_ACTIVATIONS && RunsOn(v, hint, To(w))
    ensures hint != 0 && v.Active(hint) ==> w.curr == hint
  {
  }

  /** A callee that waited starts with the arguments, the identifier and the token of the call, and its own `v1`. */
  lemma CalleeStarts(s: State, regs: Frame, kind: Call, dest: nat, storeOk: bool, idc: nat)
    requires Running(s) && 0 < dest < s.next && (kind == SyncCall ==> s.unique + 1 < CALL_NUMBERS)
    requires CCall(s, regs, kind, dest, storeOk, idc).Goes? && Seen(s).Valid() && Reaches(Seen(s), kind, dest, storeOk)
    requires s.acts[dest].sched == Waiting && (kind == SyncCall || kind == SendSwitch)
    ensures var t := CCall(s, regs, kind, dest, storeOk, idc).s;
      var tok := if kind == SyncCall then Token(s.curr, s.unique + 1) else NoToken;
      t.curr == dest && |t.frames| == MAX_ACTIVATIONS && t.frames[dest] == Frame(regs.args, s.frames[dest].v1, idc, tok)
  {
    hide CCall, RunsOn, Sent, ActiveOk, CallsOk, NumbersOk, MessagesOk, View.Valid;
    CallIs(s, regs, kind, dest, storeOk, idc);
    var t, v := CCall(s, regs, kind, dest, storeOk, idc).s, Seen(s);
    WaitersHaveNone(s, dest);
    FirstToWaiter(v, regs, kind, dest, idc);
    var w := Sent(v, regs, kind, dest, idc);
    var b := if kind == SyncCall then Numbered(w).Marked(s.curr, SyncBlock) else w.Rested(s.curr);
    HintRuns(b, dest, Seen(t));
    HintStarts(b, dest, Seen(t));
  }

  lemma WaitersHaveNone(s: State, a: nat)
    requires Inv(s) && a < MAX_ACTIVATIONS && s.acts[a].sched == Waiting
    ensures Seen(s).Waiting(a) == 0
  {
    SeenValid(s);
    assert Room(s, a);
    assert MessagesOkFor(s.acts[a], s.queues[a], s.pushed[a], s.popped[a]);
  }

  /** A message to somebody who waits is the oldest that waits for him, and wakes him. */
  lemma FirstToWaiter(v: View, regs: Frame, kind: Call, dest: nat, idc: nat)
    requires v.Valid() && 0 < dest < MAX_ACTIVATIONS && v.Waiting(dest) == 0 && v.acts[dest].sched == Waiting
    ensures var w := Sent(v, regs, kind, dest, idc);
      && |w.acts| == |w.frames| == |w.pushed| == |w.popped| == MAX_ACTIVATIONS && w.curr == v.curr
      && w.frames == v.frames[v.curr := regs] && w.popped == v.popped && w.acts[dest].sched == Schedulable
      && |w.popped[dest]| < |w.pushed[dest]| && w.pushed[dest][|w.popped[dest]|] == Msg(regs.args, idc, TokenOf(v, kind))
  {
  }

  lemma HintStarts(v: View, hint: nat, w: View)
    requires v.Valid() && 0 < hint < MAX_ACTIVATIONS && RunsOn(v, hint, To(w)) && v.acts[hint].sched == Schedulable
    ensures |v.popped[hint]| < |v.pushed[hint]| && |w.frames| == MAX_ACTIVATIONS && w.curr == hint
    ensures var m := v.pushed[hint][|v.popped[hint]|]; w.frames[hint] == Frame(m.args, v.frames[hint].v1, m.idc, m.c1)
  {
    assert v.Sensible(hint);
  }

  /** An accepted answer: the caller runs on, with the values of the callee's `c3`, `v0` and `v1` and otherwise its own registers. */
  lemma CallerGets(s: State, regs: Frame)
    requires Running(s) && Issued(s, regs.c1) && regs.c1.Token? && CReturn(s, regs).Goes?
    ensures var t, c, u := CReturn(s, regs).s, regs.c1.caller, regs.c1.unique;
      && c < |s.acts| == |s.frames| == |t.acts| == |t.frames| && s.acts[c].sched == SyncBlock && s.acts[c].expected == u
      && t.curr == c && t.acts[c] == s.acts[c].(sched := Runnable) && t.answered == s.answered + {u}
      && t.frames[c] == Frame(s.frames[c].args.(c3 := regs.args.c3, v0 := regs.args.v0), regs.v1, s.frames[c].idc, s.frames[c].c1)
      && t.pushed == s.pushed
  {
    hide CReturn, RunsOn, ActiveOk, CallsOk, NumbersOk, MessagesOk, View.Valid;
    ReturnIs(s, regs);
    AcceptedFacts(s, regs);
    var t, c, v := CReturn(s, regs).s, regs.c1.caller, Seen(s);
    var w := Answered(v.Entered(regs), regs, regs.c1).Rested(s.curr);
    RunningSends(w, c, Seen(t));
    HintRuns(w, c, Seen(t));
    RunnerKeeps(w, c, Seen(t));
  }

  lemma AcceptedFacts(s: State, regs: Frame)
    requires Running(s) && Issued(s, regs.c1) && regs.c1.Token? && CReturn(s, regs).Goes?
    ensures 0 < regs.c1.caller < |s.acts| == MAX_ACTIVATIONS && regs.c1.caller != s.curr
    ensures s.acts[regs.c1.caller].sched == SyncBlock && s.acts[regs.c1.caller].expected == regs.c1.unique < 0x1000_0000
  {
    hide ActiveOk, MessagesOk, CallsOk, NumbersOk, Issued;
    EnterKeeps(s, regs);
    IssuedStays(s, regs);
    TakenIff(Enter(s, regs), regs.c1);
    AnswerFacts(Enter(s, regs), regs.c1);
  }

  lemma RunnerKeeps(v: View, hint: nat, w: View)
    requires v.Valid() && hint < MAX_ACTIVATIONS && RunsOn(v, hint, To(w)) && w.curr < MAX_ACTIVATIONS && v.acts[w.curr].sched == Runnable
    ensures w == v.(curr := w.curr)
  {
  }

  /** A call that is refused changes nothing but the caller's registers; one that finds no room says so in `v0`, or stops the kernel. */
  lemma CallFails(s: State, regs: Frame, kind: Call, dest: nat, storeOk: bool, idc: nat)
    requires Running(s) && 0 < dest < s.next && (kind == SyncCall ==> s.unique + 1 < CALL_NUMBERS)
    ensures Seen(s).Valid() && dest < MAX_ACTIVATIONS
    ensures var o := CCall(s, regs, kind, dest, storeOk, idc);
      && (!Reaches(Seen(s), kind, dest, storeOk) ==> SeenAfter(o) == To(Seen(s).Entered(regs)))
      && (Reaches(Seen(s), kind, dest, storeOk) && |s.pushed[dest]| - |s.popped[dest]| == MAX_MSG - 1 ==>
            if kind == SyncCall then o == Halted
            else o.Goes? ==> s.curr < |o.s.frames| && (o.s.curr != s.curr || kind == Send ==> o.s.frames[s.curr] == regs.(args := regs.args.(v0 := 0))))
  {
    hide ActiveOk, MessagesOk, CallsOk, NumbersOk, CCall, RunsOn;
    CallIs(s, regs, kind, dest, storeOk, idc);
    var o, w := CCall(s, regs, kind, dest, storeOk, idc), Sent(Seen(s), regs, kind, dest, idc);
    if kind == SendSwitch && Reaches(Seen(s), kind, dest, storeOk) && o.Goes? {
      RunningSends(w.Rested(s.curr), dest, Seen(o.s));
    }
  }

  // ---------- what every run delivers ----------

  /** Between two views `a` has taken no message, or it has just started with the one it took. */
  ghost predicate Receives(v: View, w: View, a: nat)
    requires |v.acts| == |v.popped| == |w.acts| == |w.popped| == |w.frames| == MAX_ACTIVATIONS && a < MAX_ACTIVATIONS
  {
    if w.popped[a] == v.popped[a] then !(v.acts[a].sched == Schedulable && w.acts[a].sched == Runnable)
    else
      && w.curr == a && w.acts[a].sched == Runnable && |w.popped[a]| == |v.popped[a]| + 1
      && var m := w.popped[a][|v.popped[a]|];
      w.popped[a] == v.popped[a] + [m] && w.frames[a] == Frame(m.args, w.frames[a].v1, m.idc, m.c1)
  }

  /** Before anybody is picked nobody has taken a message, and who was schedulable has not been made runnable. */
  ghost predicate TakesNothing(v: View, w: View) {
    && |v.acts| == |w.acts| == |w.frames| == MAX_ACTIVATIONS && w.popped == v.popped
    && forall a :: 0 <= a < MAX_ACTIVATIONS && v.acts[a].sched == Schedulable ==> w.acts[a].sched != Runnable
  }

  lemma NothingReceived(v: View, w: View, a: nat)
    requires v.Valid() && TakesNothing(v, w) && a < MAX_ACTIVATIONS
    ensures Receives(v, w, a)
  {
  }

  lemma PickedReceives(v: View, u: View, hint: nat, w: View, a: nat)
    requires v.Valid() && TakesNothing(v, u) && u.Valid() && hint < MAX_ACTIVATIONS && RunsOn(u, hint, To(w)) && a < MAX_ACTIVATIONS
    ensures |w.acts| == |w.popped| == |w.frames| == MAX_ACTIVATIONS && Receives(v, w, a)
  {
    RunningSends(u, hint, w);
    hide View.Valid;
    if a == w.curr && u.acts[a].sched == Schedulable {
      var m := u.pushed[a][|u.popped[a]|];
      assert w.popped[a] == v.popped[a] + [m];
    }
  }

  lemma CallReceives(v: View, regs: Frame, kind: Call, dest: nat, storeOk: bool, idc: nat, w: View, a: nat)
    requires v.Valid() && 0 < dest < MAX_ACTIVATIONS && v.acts[v.curr].sched == Runnable && a < MAX_ACTIVATIONS
    requires CallMoves(v, regs, kind, dest, storeOk, idc, To(w))
    ensures |w.acts| == |w.popped| == |w.frames| == MAX_ACTIVATIONS && Receives(v, w, a)
  {
    hide RunsOn, Receives;
    if Reaches(v, kind, dest, storeOk) {
      var u := Sent(v, regs, kind, dest, idc);
      if kind == SyncCall {
        PickedReceives(v, Numbered(u).Marked(v.curr, SyncBlock), dest, w, a);
      } else if kind == SendSwitch {
        PickedReceives(v, u.Rested(v.curr), dest, w, a);
      } else {
        NothingReceived(v, w, a);
      }
    } else {
      NothingReceived(v, w, a);
    }
  }

  lemma ReturnReceives(v: View, regs: Frame, w: View, a: nat)
    requires v.Valid() && v.acts[v.curr].sched == Runnable && a < MAX_ACTIVATIONS && ReturnMoves(v, regs, To(w))
    ensures |w.acts| == |w.popped| == |w.frames| == MAX_ACTIVATIONS && Receives(v, w, a)
  {
    hide RunsOn, Receives;
    var e := v.Entered(regs);
    if regs.c1.NoToken? {
      PickedReceives(v, e.Rested(v.curr), v.curr, w, a);
    } else {
      PickedReceives(v, Answered(e, regs, regs.c1).Rested(v.curr), regs.c1.caller, w, a);
    }
  }

  lemma TerminateReceives(v: View, b: nat, w: View, a: nat)
    requires v.Valid() && b < MAX_ACTIVATIONS && a < MAX_ACTIVATIONS && TerminateMoves(v, b, To(w))
    ensures |w.acts| == |w.popped| == |w.frames| == MAX_ACTIVATIONS && Receives(v, w, a)
  {
    hide RunsOn, Receives;
    var u := v.(acts := v.acts[b := Act(Terminated, Ended, v.acts[b].expected)]);
    if b == v.curr {
      PickedReceives(v, u, 0, w, a);
    } else {
      NothingReceived(v, w, a);
    }
  }

  lemma {:induction false} InterruptsReceive(v: View, u: View, pending: seq<bool>, child: seq<nat>, i: nat, w: View)
    requires v.Valid() && TakesNothing(v, u) && Lines(pending, child) && i <= LINES && InterruptsMove(u, pending, child, i, To(w))
    ensures TakesNothing(v, w)
    decreases LINES - i
  {
    hide View.Sensible;
    if i < LINES {
      if !pending[i] || child[i] == 0 {
        InterruptsReceive(v, u, pending, child, i + 1, w);
      } else {
        assert TakesNothing(v, LineTold(u, i, child[i]));
        InterruptsReceive(v, LineTold(u, i, child[i]), pending, child, i + 1, w);
      }
    }
  }

  /** In every step: who takes a message starts with it, and nobody starts without one that waited to be taken. */
  lemma StepReceives(s: State, op: Op, a: nat)
    requires Running(s) && Allowed(s, op) && Step(s, op).Goes? && a < MAX_ACTIVATIONS
    ensures var v, w := Seen(s), Seen(Step(s, op).s);
      |v.acts| == |v.popped| == |w.acts| == |w.popped| == |w.frames| == MAX_ACTIVATIONS && Receives(v, w, a)
  {
    hide ActiveOk, MessagesOk, CallsOk, NumbersOk, Step, RunsOn, Receives;
    StepRefines(s, op);
    var v, w := Seen(s), Seen(Step(s, op).s);
    hide CallMoves, ReturnMoves, TerminateMoves, InterruptsMove, Reaches, View.Valid;
    match op
    case DoCall(regs, kind, dest, storeOk, idc) => CallReceives(v, regs, kind, dest, storeOk, idc, w, a);
    case DoReturn(regs) => ReturnReceives(v, regs, w, a);
    case DoRegister(frame) => NothingReceived(v, w, a);
    case DoTerminate(b) => TerminateReceives(v, b, w, a);
    case DoInterrupts(pending, child) =>
      InterruptsReceive(v, v, pending, child, 0, w);
      NothingReceived(v, w, a);
    case DoReschedule => PickedReceives(v, v, 0, w, a);
  }

  /**
   In every run the k-th message an activation takes is the k-th that was sent to it, and it is there in the
   registers with which it starts.
   */
  lemma RunDelivers(ops: seq<Op>, states: seq<State>, k: nat, a: nat)
    requires IsRun(ops, states) && k < |ops| && a < MAX_ACTIVATIONS
    ensures var v, w := Seen(states[k]), Seen(states[k + 1]);
      && |v.acts| == |v.popped| == |w.acts| == |w.pushed| == |w.popped| == |w.frames| == MAX_ACTIVATIONS
      && Receives(v, w, a) && w.popped[a] <= w.pushed[a]
  {
    hide ActiveOk, MessagesOk, CallsOk, NumbersOk, Step, Receives;
    RunAt(ops, states, k);
    StepReceives(states[k], ops[k], a);
    Delivery(ops, states, k + 1, a);
    RunsKeepInv(ops, states, k + 1);
  }
}
