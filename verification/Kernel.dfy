/**
 The kernel's scheduler, message queues and synchronous calls as they are coded, on the global
 tables of `kernel/src/sched.c`, `msg.c`, `ccall.c` and `act.c`.  Every routine is proved to make the
 step that `KernelModel` gives for it.  A routine that ends in `kernel_panic`, `kernel_freeze` or a
 failed `kernel_assert` returns `halted`; nothing is said about the tables then.
 */
module Kernel {
  import opened ActiveQueue
  import opened KernelModel

  class Tables {
    const acts: array<Act>
    const queues: array<Queue>
    const frames: array<Frame>
    const aqueue: array<nat>
    const squeueA: array<nat>
    var squeueAIdx: nat
    var squeueAEnd: nat
    var currAct: nat
    var nextAct: nat
    var unique: nat
    ghost var pushed: seq<seq<Msg>>
    ghost var popped: seq<seq<Msg>>
    ghost var issued: map<nat, nat>
    ghost var answered: set<nat>

    /** `act_init`, with the register frames as they are then. */
    constructor (frame: Frame, empty: Msg)
      ensures Made() && S() == Boot(seq(MAX_ACTIVATIONS, _ => frame), empty) && Running(S())
    {
      acts := new Act[MAX_ACTIVATIONS](i => if i == 0 then Act(Terminated, Ended, 0) else if i == 1 then Act(Alive, Runnable, 0)
                               else Act(Alive, Waiting, 0));
      queues := new Queue[MAX_ACTIVATIONS](_ => Queue(0, 0, seq(MAX_MSG, _ => empty)));
      frames := new Frame[MAX_ACTIVATIONS](_ => frame);
      aqueue := new nat[MAX_ACTIVATIONS](_ => 0);
      squeueA := new nat[MAX_ACTIVATIONS](i => if i == 0 then 1 else 0);
      squeueAIdx, squeueAEnd, currAct, nextAct, unique := 0, 1, 1, 2, 0;
      pushed, popped, issued, answered := seq(MAX_ACTIVATIONS, _ => []), seq(MAX_ACTIVATIONS, _ => []), map[], {};
      new;
      ghost var b := Boot(seq(MAX_ACTIVATIONS, _ => frame), empty);
      assert acts[..] == b.acts && queues[..] == b.queues && frames[..] == b.frames;
      assert aqueue[..] == b.aq && squeueA[..] == b.sq;
      BootRuns(seq(MAX_ACTIVATIONS, _ => frame), empty);
    }

    ghost predicate Made() {
      && acts.Length == queues.Length == frames.Length == aqueue.Length == squeueA.Length == MAX_ACTIVATIONS
      && aqueue != squeueA
    }

    /** The state that the tables stand for. */
    ghost function S(): State
      reads this, acts, queues, frames, aqueue, squeueA
    {
      State(acts[..], queues[..], frames[..], aqueue[..], squeueA[..], squeueAIdx, squeueAEnd, currAct, nextAct, unique,
        pushed, popped, issued, answered)
    }

    // ---------- sched.c ----------

    /** `sched_d2a`. */
    method SchedD2A(act: nat, status: Sched)
      requires Made() && act < MAX_ACTIVATIONS && squeueAEnd < MAX_ACTIVATIONS
      modifies this, acts, aqueue, squeueA
      ensures S() == D2A(old(S()), act, status)
    {
      aqueue[act] := squeueAEnd;
      squeueA[squeueAEnd] := act;
      squeueAEnd := squeueAEnd + 1;
      acts[act] := acts[act].(sched := status);
    }

    /** `QDEL`. */
    method QDelete(act: nat)
      requires Made() && act < MAX_ACTIVATIONS && aqueue[act] < MAX_ACTIVATIONS && 0 < squeueAEnd <= MAX_ACTIVATIONS && squeueA[squeueAEnd - 1] < MAX_ACTIVATIONS
      modifies this, aqueue, squeueA
      ensures var (aq, sq, end) := QDel(old(aqueue[..]), old(squeueA[..]), old(squeueAEnd), act);
        S() == old(S()).(aq := aq, sq := sq, end := end)
    {
      squeueAEnd := squeueAEnd - 1;
      var replacement := squeueA[squeueAEnd];
      squeueA[aqueue[act]] := replacement;
      aqueue[replacement] := aqueue[act];
    }

    /** `sched_a2d`. */
    method SchedA2D(act: nat, status: Sched)
      requires Made() && CanDel(S(), act)
      modifies this, acts, aqueue, squeueA
      ensures S() == A2D(old(S()), act, status)
    {
      QDelete(act);
      acts[act] := acts[act].(sched := status);
    }

    /** The queue part of `sched_delete`. */
    method SchedDelete(act: nat)
      requires Made() && act < MAX_ACTIVATIONS && 0 < squeueAEnd <= MAX_ACTIVATIONS && squeueA[squeueAEnd - 1] < MAX_ACTIVATIONS && aqueue[act] < MAX_ACTIVATIONS
      modifies this, aqueue, squeueA
      ensures var (aq, sq, end) := Delete(old(aqueue[..]), old(squeueA[..]), old(squeueAEnd), act);
        S() == old(S()).(aq := aq, sq := sq, end := end)
    {
      if squeueA[aqueue[act]] == act {
        QDelete(act);
      }
    }

    /** `sched_picknext`: 0 if nothing is active. */
    method PickNext() returns (act: nat)
      requires Made() && squeueAEnd <= MAX_ACTIVATIONS
      modifies this
      ensures squeueAEnd == old(squeueAEnd)
      ensures squeueAEnd == 0 ==> act == 0 && S() == old(S())
      ensures squeueAEnd > 0 ==> act == squeueA[NextIdx(old(squeueAIdx), squeueAEnd)]
      ensures squeueAEnd > 0 ==> S() == old(S()).(idx := NextIdx(old(squeueAIdx), squeueAEnd))
    {
      if squeueAEnd == 0 {
        act := 0;
      } else {
        squeueAIdx := (squeueAIdx + 1) % squeueAEnd;
        act := squeueA[squeueAIdx];
      }
    }

    /** `sched_schedule` with `msg_pop`. */
    method SchedSchedule(act: nat)
      requires Made() && act < MAX_ACTIVATIONS && Inv(S()) && acts[act].sched == Schedulable
      modifies this, acts, queues, frames
      ensures S() == Schedule(old(S()), act)
    {
      assert MessagesOkFor(acts[act], queues[act], pushed[act], popped[act]);
      var m := queues[act].msg[queues[act].start];
      frames[act] := Frame(m.args, frames[act].v1, m.idc, m.c1);
      queues[act] := Get(queues[act]);
      popped := popped[act := popped[act] + [m]];
      acts[act] := acts[act].(sched := Runnable);
    }

    /** `sched_reschedule`; the jump back is taken at most once. */
    method SchedReschedule(hint0: nat) returns (halted: bool)
      requires Made() && Inv(S()) && hint0 < MAX_ACTIVATIONS
      modifies this, acts, queues, frames
      ensures if halted then Reschedule(old(S()), hint0) == Halted else Goes(S()) == Reschedule(old(S()), hint0)
    {
      hide Inv, Schedule;
      ghost var s := S();
      PickIsActive(s);
      var hint := hint0;
      ghost var picked := hint == 0;
      if hint == 0 {
        hint := PickNext();
      }
      while true
        invariant !picked ==> S() == s && hint == hint0 != 0
        invariant picked ==> hint0 == 0 || !IsActive(s.acts[hint0].sched)
        invariant picked && s.end == 0 ==> S() == s && hint == 0
        invariant picked && s.end > 0 ==> S() == s.(idx := PickIdx(s)) && hint == s.sq[PickIdx(s)]
        decreases !picked
      {
        if hint == 0 {
          return true;
        }
        ghost var t := S();
        if acts[hint].sched == Schedulable {
          IdxKeeps(s, t.idx);
          ScheduleKeeps(t, hint);
          SchedSchedule(hint);
        }
        if acts[hint].sched == Runnable {
          break;
        }
        hint := PickNext();
        picked := true;
      }
      currAct := hint;
      halted := false;
    }

    // ---------- msg.c ----------

    /** `msg_push`; `full` if the queue has no room. */
    method MsgPush(dest: nat, src: nat, identifier: nat, syncToken: Token) returns (full: bool)
      requires Made() && Inv(S()) && 0 < dest < nextAct && src < MAX_ACTIVATIONS
      modifies this, acts, queues, aqueue, squeueA
      ensures full == Full(old(queues[dest]))
      ensures full ==> S() == old(S())
      ensures !full ==>
        (PushKeeps(old(S()), dest, Msg(old(frames[src]).args, identifier, syncToken));
         S() == Push(old(S()), dest, Msg(old(frames[src]).args, identifier, syncToken)))
    {
      full := Full(queues[dest]);
      if !full {
        ghost var s, m := S(), Msg(frames[src].args, identifier, syncToken);
        PushKeeps(s, dest, m);
        hide Inv;
        queues[dest] := Put(queues[dest], Msg(frames[src].args, identifier, syncToken));
        pushed := pushed[dest := pushed[dest] + [m]];
        if acts[dest].sched == Waiting {
          SchedD2A(dest, Schedulable);
        }
      }
    }

    // ---------- act.c ----------

    /** `act_wait`. */
    method ActWait(act: nat, nextHint: nat) returns (halted: bool)
      requires Made() && Inv(S()) && act < MAX_ACTIVATIONS && nextHint < MAX_ACTIVATIONS
      modifies this, acts, queues, frames, aqueue, squeueA
      ensures if halted then Wait(old(S()), act, nextHint) == Halted else Goes(S()) == Wait(old(S()), act, nextHint)
    {
      if acts[act].sched != Runnable {
        return true;
      }
      IdleKeeps(S(), act);
      hide Inv, Reschedule;
      if Empty(queues[act]) {
        SchedA2D(act, Waiting);
      } else {
        acts[act] := acts[act].(sched := Schedulable);
      }
      halted := SchedReschedule(nextHint);
    }

    /** `act_register`. */
    method ActRegister(frame: Frame) returns (halted: bool)
      requires Made() && Running(S())
      modifies this, acts, queues, frames
      ensures if halted then Register(old(S()), frame) == Halted else Goes(S()) == Register(old(S()), frame) && Running(S())
    {
      RegisterKeeps(S(), frame);
      hide Inv, Running;
      if nextAct >= MAX_ACTIVATIONS {
        return true;
      }
      FillSlot(frame);
      halted := false;
    }

    /** The fields of the next activation. */
    method FillSlot(frame: Frame)
      requires Made() && nextAct < MAX_ACTIVATIONS
      modifies this, acts, queues, frames
      ensures S() == SlotFilled(old(S()), frame)
    {
      ghost var s := S();
      var n := nextAct;
      acts[n] := acts[n].(status := Alive);
      frames[n] := frame;
      queues[n] := Queue(0, 0, queues[n].msg);
      acts[n] := acts[n].(sched := Waiting);
      nextAct := n + 1;
      assert acts[..] == s.acts[n := Act(Alive, Waiting, s.acts[n].expected)];
      assert queues[..] == s.queues[n := Queue(0, 0, s.queues[n].msg)];
    }

    /** The system call around `act_terminate`. */
    method ActTerminate(act: nat) returns (halted: bool)
      requires Made() && Running(S()) && 0 < act < nextAct
      modifies this, acts, queues, frames, aqueue, squeueA
      ensures if halted then Terminate(old(S()), act) == Halted else Goes(S()) == Terminate(old(S()), act) && (Running(S()) <==> GuardTells(old(S()), act))
    {
      ghost var s := S();
      EndIff(s, act);
      CurrentTells(s);
      TerminateIff(s, act);
      DeleteInRange(s, act);
      hide Inv, Reschedule, Delete, GuardTells, End;
      EndAct(act);
      if act == currAct {
        halted := SchedReschedule(0);
      } else {
        frames[currAct] := frames[currAct].(args := frames[currAct].args.(v0 := 0));
        halted := false;
      }
    }

    /** `act_terminate` up to the test whether an activation has ended itself. */
    method EndAct(act: nat)
      requires Made() && act < MAX_ACTIVATIONS && aqueue[act] < MAX_ACTIVATIONS
      requires 0 < squeueAEnd <= MAX_ACTIVATIONS && squeueA[squeueAEnd - 1] < MAX_ACTIVATIONS
      modifies this, acts, aqueue, squeueA
      ensures S() == End(old(S()), act)
    {
      hide Delete;
      ghost var s := S();
      acts[act] := acts[act].(status := Terminated);
      SchedDelete(act);
      acts[act] := acts[act].(sched := Ended);
      assert acts[..] == s.acts[act := Act(Terminated, Ended, s.acts[act].expected)];
    }

    // ---------- ccall.c ----------

    /** `get_sync_token`. */
    method GetSyncToken(ccaller: nat) returns (token: Token)
      requires Made() && ccaller < MAX_ACTIVATIONS
      modifies this, acts
      ensures S() == NewCall(old(S()), ccaller) && token == Token(ccaller, unique)
    {
      unique := (unique + 1) % CALL_NUMBERS;
      acts[ccaller] := acts[ccaller].(expected := unique);
      issued := issued[unique := ccaller];
      token := Token(ccaller, unique);
    }

    /** The push of `kernel_ccall_core` and what it does when the queue is full. */
    method SendMessage(dest: nat, idc: nat, token: Token) returns (full: bool)
      requires Made() && Running(S()) && 0 < dest < nextAct
      modifies this, acts, queues, frames, aqueue, squeueA
      ensures full == Full(old(queues[dest]))
      ensures S() == SendTo(old(S()), dest, idc, token) && Running(S())
    {
      SendKeeps(S(), dest, idc, token);
      hide Inv;
      full := MsgPush(dest, currAct, idc, token);
      if full {
        frames[currAct] := frames[currAct].(args := frames[currAct].args.(v0 := 0));
      }
    }

    /** `kernel_ccall` with `kernel_ccall_core`, entered with the registers `regs`. */
    method KernelCCall(regs: Frame, kind: Call, dest: nat, storeOk: bool, idc: nat) returns (halted: bool)
      requires Made() && Running(S()) && 0 < dest < nextAct && (kind == SyncCall ==> unique + 1 < CALL_NUMBERS)
      modifies this, acts, queues, frames, aqueue, squeueA
      ensures var o := CCall(old(S()), regs, kind, dest, storeOk, idc);
        if halted then o == Halted else Goes(S()) == o && Running(S())
    {
      hide ActiveOk, MessagesOk, CallsOk, NumbersOk, SendTo, Wait, Reschedule;
      ghost var s0 := S();
      CCallKeeps(s0, regs, kind, dest, storeOk, idc);
      EnterKeeps(s0, regs);
      frames[currAct] := regs;
      ghost var s := S();
      assert s == Enter(s0, regs);
      halted := false;
      if kind != Unknown && storeOk && acts[dest].status == Alive {
        if kind == SyncCall {
          NewCallKeeps(s, s.curr);
          var token := GetSyncToken(currAct);
          if Full(queues[dest]) {
            return true;
          }
          SendKeeps(S(), dest, idc, token);
          SendBooks(S(), dest, idc, token);
          var full := SendMessage(dest, idc, token);
          BlockKeeps(S(), currAct);
          SchedA2D(currAct, SyncBlock);
          halted := SchedReschedule(dest);
        } else {
          SendKeeps(s, dest, idc, NoToken);
          var full := SendMessage(dest, idc, NoToken);
          if kind == SendSwitch {
            halted := ActWait(currAct, dest);
          }
        }
      }
    }

    /** `kernel_creturn`, entered with the registers `regs`. */
    method KernelCReturn(regs: Frame) returns (halted: bool)
      requires Made() && Running(S()) && Issued(S(), regs.c1)
      modifies this, acts, queues, frames, aqueue, squeueA
      ensures var o := CReturn(old(S()), regs); if halted then o == Halted else Goes(S()) == o && Running(S())
    {
      hide ActiveOk, MessagesOk, NumbersOk, Wait;
      ghost var s0 := S();
      CReturnKeeps(s0, regs);
      EnterKeeps(s0, regs);
      frames[currAct] := regs;
      ghost var s := S();
      assert s == Enter(s0, regs);
      match regs.c1
      case NoToken =>
        halted := ActWait(currAct, currAct);
      case Token(ccaller, n) =>
        if acts[ccaller].expected != n % 0x1000_0000 || acts[ccaller].sched != SyncBlock {
          return true;
        }
        AnswerKeeps(s, regs.c1);
        SchedD2A(ccaller, Runnable);
        answered := answered + {acts[ccaller].expected};
        frames[ccaller] := frames[ccaller].(args := frames[ccaller].args.(c3 := regs.args.c3, v0 := regs.args.v0), v1 := regs.v1);
        assert S() == Answer(s, regs.c1);
        halted := ActWait(currAct, ccaller);
    }

    /** `kernel_interrupt_others`: the pending and enabled lines in turn; a line without a handler is passed over. */
    method InterruptOthers(pending: seq<bool>, child: seq<nat>) returns (halted: bool)
      requires Made() && Running(S()) && Lines(pending, child) && Handlers(S(), child)
      modifies this, acts, queues, frames, aqueue, squeueA
      ensures var o := Interrupts(old(S()), pending, child, 0); if halted then o == Halted else Goes(S()) == o && Running(S())
    {
      hide Inv, Interrupt;
      for i := 0 to LINES
        invariant Running(S()) && Handlers(S(), child)
        invariant Interrupts(S(), pending, child, i) == Interrupts(old(S()), pending, child, 0)
      {
        if pending[i] && child[i] != 0 {
          InterruptStep(S(), i, child[i]);
          halted := InterruptOne(i, child[i]);
          if halted { return; }
        }
      }
      halted := false;
    }

    /** One pending interrupt of `kernel_interrupt_others`. */
    method InterruptOne(i: int, dest: nat) returns (halted: bool)
      requires Made() && Running(S()) && 0 < dest < nextAct
      modifies this, acts, queues, frames, aqueue, squeueA
      ensures var o := Interrupt(old(S()), i, dest); if halted then o == Halted else Goes(S()) == o && Running(S())
    {
      InterruptStep(S(), i, dest);
      InterruptFrame(S(), i);
      hide ActiveOk, MessagesOk, CallsOk, NumbersOk, Push;
      frames[0] := frames[0].(args := frames[0].args.(v0 := -3, a0 := i));
      halted := MsgPush(dest, 0, 0, NoToken);
    }
  }
}
