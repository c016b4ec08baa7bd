/** The lifecycle of a `TerminalSession`: the start guard and the state each
    start failure leaves behind, the input and resize guards, and the release
    trace of `CloseAsync`. Native resources are opaque tokens; the kernel calls
    that create them succeed or fail according to a `Fault` parameter and hand
    out the tokens of a `Fresh` record. */
module Session {
  import opened Wrappers

  /** An opaque native handle or pointer; `0` is `IntPtr.Zero`. */
  type Handle = nat

  /** `(short)x`: the two's-complement truncation of a .NET `int` to 16 bits. */
  function ToInt16(x: int): (r: int)
    ensures -0x8000 <= r < 0x8000
    ensures (x - r) % 0x1_0000 == 0
    ensures -0x8000 <= x < 0x8000 ==> r == x
  {
    (x + 0x8000) % 0x1_0000 - 0x8000
  }

  /** Range and congruence pin the truncation down: two values in the 16-bit
      range that differ by a multiple of 65536 are equal. */
  lemma TruncationIsUnique(x: int, a: int, b: int)
    requires -0x8000 <= a < 0x8000 && -0x8000 <= b < 0x8000
    requires (x - a) % 0x1_0000 == 0 && (x - b) % 0x1_0000 == 0
    ensures a == b
  {
    assert (a - b) % 0x1_0000 == 0 by {
      assert a - b == (x - b) - (x - a);
    }
  }

  /** A size out of range wraps around, as the cast does: `-1` columns stay
      `-1`, and `70000` rows become `4464`. */
  lemma ConsoleSizeWraps()
    ensures ConsoleSize(-1, 70000) == Coord(-1, 4464)
  {
  }

  /** The `COORD` handed to the pseudo-console. */
  datatype Coord = Coord(x: int, y: int)

  function ConsoleSize(cols: int, rows: int): (c: Coord)
    ensures -0x8000 <= c.x < 0x8000 && -0x8000 <= c.y < 0x8000
    ensures (cols - c.x) % 0x1_0000 == 0 && (rows - c.y) % 0x1_0000 == 0
    ensures -0x8000 <= cols < 0x8000 ==> c.x == cols
    ensures -0x8000 <= rows < 0x8000 ==> c.y == rows
  {
    Coord(ToInt16(cols), ToInt16(rows))
  }

  /** The fields of a session. The pipe ends, streams and pseudo-console are
      nullable references; the process, thread and attribute list are raw
      values where `0` means none. `disposed` records the managed objects
      already disposed. */
  datatype Session = Session(
    pty: Option<Handle>,
    inputWrite: Option<Handle>,
    outputRead: Option<Handle>,
    inputStream: Option<Handle>,
    outputStream: Option<Handle>,
    thread: Handle,
    process: Handle,
    attrList: Handle,
    cancellation: bool,
    pump: bool,
    disposed: set<Handle>)

  /** A newly constructed session. */
  const Initial: Session := Session(None, None, None, None, None, 0, 0, 0, false, false, {})

  /** A session whose start ran to completion. */
  predicate Running(s: Session) {
    && s.pty.Some? && s.inputWrite.Some? && s.outputRead.Some?
    && s.inputStream.Some? && s.outputStream.Some?
    && s.thread != 0 && s.process != 0 && s.attrList != 0
    && s.cancellation && s.pump
  }

  // ---------------------------------------------------------------------
  // Start
  // ---------------------------------------------------------------------

  /** The native call that fails during a start, in the order they are made. */
  datatype Fault =
    | InputPipeFailed
    | OutputPipeFailed
    | PseudoConsoleFailed
    | AttributeInitFailed
    | AttributeUpdateFailed
    | ProcessLaunchFailed

  /** The faults raised once the pseudo-console exists. */
  predicate AfterPseudoConsole(f: Fault) {
    f.AttributeInitFailed? || f.AttributeUpdateFailed? || f.ProcessLaunchFailed?
  }

  datatype StartError = AlreadyStarted | Failed(fault: Fault)

  /** The handles the kernel hands out during one start. Allocation of the
      attribute list and a successful process launch never yield zero. */
  datatype Fresh = Fresh(
    inputWrite: Handle,
    outputRead: Handle,
    pty: Handle,
    attrList: Handle,
    thread: Handle,
    process: Handle,
    inputStream: Handle,
    outputStream: Handle)

  predicate ValidFresh(f: Fresh) {
    f.attrList != 0 && f.thread != 0 && f.process != 0
  }

  /** The session after the start, the announcement emitted or the error
      thrown, and the size the pseudo-console was created with, if the
      creation was attempted. */
  datatype StartResult = StartResult(session: Session, outcome: Result<string, StartError>, consoleSize: Option<Coord>)

  /** `StartSshAsync(commandLine, cols, rows)`, with `fault` naming the native
      call that fails, if any. A session holding a pseudo-console refuses to
      start and is left as it was. A failure leaves behind every field the
      start had assigned before it: the retained pipe ends once both pipes
      exist, and the pseudo-console and attribute list once the console
      exists. Only a complete start creates the streams, the cancellation
      source and the pump. Every object a start assigns is a new one, live
      even when the kernel reuses the value of a handle closed earlier. */
  function Start(s: Session, commandLine: string, cols: int, rows: int, fault: Option<Fault>, f: Fresh): (r: StartResult)
    requires ValidFresh(f)
    ensures s.pty.Some? ==> r == StartResult(s, Failure(AlreadyStarted), None)
    ensures r.outcome.Success? <==> s.pty.None? && fault.None?
    ensures r.outcome.Success? ==> Running(r.session) && r.outcome.value == "Connected: " + commandLine + "\r\n"
    ensures r.outcome.Success? ==> Disposables(r.session) !! r.session.disposed
    ensures r.outcome.Success? ==> forall t :: WriteInput(r.session, t) == Written(f.inputStream, t)
    ensures s.pty.None? && fault.Some? ==> r.outcome == Failure(Failed(fault.value))
    ensures s.pty.None? && fault.Some? ==>
              (r.session.pty.Some? <==> AfterPseudoConsole(fault.value))
              && r.session.inputStream == s.inputStream && r.session.outputStream == s.outputStream
              && r.session.pump == s.pump && r.session.cancellation == s.cancellation
              && r.session.thread == s.thread && r.session.process == s.process
    ensures fault == Some(InputPipeFailed) || fault == Some(OutputPipeFailed) ==> r.session == s
    ensures s.pty.None? && fault.Some? && !fault.value.InputPipeFailed? && !fault.value.OutputPipeFailed? ==>
              && r.session.inputWrite == Some(f.inputWrite) && r.session.outputRead == Some(f.outputRead)
              && f.inputWrite !in r.session.disposed && f.outputRead !in r.session.disposed
    ensures s.pty.None? && fault.Some? && AfterPseudoConsole(fault.value) ==>
              r.session.pty == Some(f.pty) && f.pty !in r.session.disposed && r.session.attrList == f.attrList
    ensures s.pty.None? && fault.Some? && !AfterPseudoConsole(fault.value) ==> r.session.attrList == s.attrList
    ensures r.consoleSize.Some? ==> r.consoleSize.value == ConsoleSize(cols, rows)
    ensures r.consoleSize.Some? <==> s.pty.None? && !(fault == Some(InputPipeFailed) || fault == Some(OutputPipeFailed))
    ensures r.session.disposed <= s.disposed
    ensures s.disposed - r.session.disposed <= Disposables(r.session)
  {
    if s.pty.Some? then StartResult(s, Failure(AlreadyStarted), None)
    else if fault == Some(InputPipeFailed) || fault == Some(OutputPipeFailed) then
      StartResult(s, Failure(Failed(fault.value)), None)
    else
      var piped := s.(inputWrite := Some(f.inputWrite), outputRead := Some(f.outputRead),
                      disposed := s.disposed - {f.inputWrite, f.outputRead});
      var size := ConsoleSize(cols, rows);
      if fault == Some(PseudoConsoleFailed) then StartResult(piped, Failure(Failed(fault.value)), Some(size))
      else
        var attached := piped.(pty := Some(f.pty), attrList := f.attrList, disposed := piped.disposed - {f.pty});
        if fault.Some? then StartResult(attached, Failure(Failed(fault.value)), Some(size))
        else
          var running := attached.(
            thread := f.thread, process := f.process,
            inputStream := Some(f.inputStream), outputStream := Some(f.outputStream),
            cancellation := true, pump := true,
            disposed := attached.disposed - {f.inputStream, f.outputStream});
          StartResult(running, Success("Connected: " + commandLine + "\r\n"), Some(size))
  }

  /** A start that fails after the pseudo-console was created keeps it, so
      the next start on that session is refused, until the session is
      closed. */
  lemma FailedLaunchRefusesRestart(
    s: Session, commandLine: string, cols: int, rows: int, fault: Fault, f: Fresh,
    again: Option<Fault>, g: Fresh)
    requires ValidFresh(f) && ValidFresh(g)
    requires s.pty.None? && AfterPseudoConsole(fault)
    ensures var failed := Start(s, commandLine, cols, rows, Some(fault), f).session;
            Start(failed, commandLine, cols, rows, again, g).outcome == Failure(AlreadyStarted)
  {
  }

  // ---------------------------------------------------------------------
  // Input and resize
  // ---------------------------------------------------------------------

  /** What a call to `WriteInputAsync` does with the input stream. */
  datatype WriteEffect = Skipped | ThrowsDisposed(stream: Handle) | Written(stream: Handle, text: string)

  /** `WriteInputAsync(text)`: nothing without an input stream; a write that
      throws when the stream was disposed; otherwise the text goes to the
      stream. */
  function WriteInput(s: Session, text: string): (r: WriteEffect)
    ensures r.Skipped? <==> s.inputStream.None?
    ensures r.ThrowsDisposed? ==> s.inputStream == Some(r.stream) && r.stream in s.disposed
    ensures r.Written? ==> s.inputStream == Some(r.stream) && r.stream !in s.disposed && r.text == text
  {
    match s.inputStream
    case None => Skipped
    case Some(stream) => if stream in s.disposed then ThrowsDisposed(stream) else Written(stream, text)
  }

  /** `Resize(cols, rows)`: nothing without a pseudo-console, otherwise the
      console and the truncated size it is resized to. */
  function Resize(s: Session, cols: int, rows: int): (r: Option<(Handle, Coord)>)
    ensures r.None? <==> s.pty.None?
    ensures r.Some? ==> r.value.0 == s.pty.value && r.value.1 == ConsoleSize(cols, rows)
  {
    match s.pty
    case None => None
    case Some(pty) => Some((pty, ConsoleSize(cols, rows)))
  }

  // ---------------------------------------------------------------------
  // Close
  // ---------------------------------------------------------------------

  /** One step of `CloseAsync`. */
  datatype Release =
    | Cancel
    | AwaitPump
    | CloseThread(h: Handle)
    | CloseProcess(h: Handle)
    | DisposeOutputStream(h: Handle)
    | DisposeInputStream(h: Handle)
    | DisposeOutputRead(h: Handle)
    | DisposeInputWrite(h: Handle)
    | FreeAttrList(h: Handle)
    | DisposePty(h: Handle)

  /** The position of each kind of step in the required close order. */
  function Rank(e: Release): (k: nat)
    ensures k < 10
  {
    match e
    case Cancel => 0
    case AwaitPump => 1
    case CloseThread(_) => 2
    case CloseProcess(_) => 3
    case DisposeOutputStream(_) => 4
    case DisposeInputStream(_) => 5
    case DisposeOutputRead(_) => 6
    case DisposeInputWrite(_) => 7
    case FreeAttrList(_) => 8
    case DisposePty(_) => 9
  }

  /** The steps follow the required order, each kind at most once. */
  predicate Ordered(trace: seq<Release>) {
    forall i, j :: 0 <= i < j < |trace| ==> Rank(trace[i]) < Rank(trace[j])
  }

  /** A release of a raw native value, which must not happen twice: unlike
      disposing a managed object, closing a handle or freeing memory a second
      time acts on whatever now owns that value. */
  predicate Native(e: Release) {
    e.CloseThread? || e.CloseProcess? || e.FreeAttrList?
  }

  /** The present entries of a sequence of optional steps. */
  function Present(steps: seq<Option<Release>>): seq<Release> {
    if steps == [] then []
    else (if steps[0].Some? then [steps[0].value] else []) + Present(steps[1..])
  }

  /** The present step at index `k` has rank `lo + k`. */
  predicate RankedFrom(steps: seq<Option<Release>>, lo: nat) {
    forall k :: 0 <= k < |steps| && steps[k].Some? ==> Rank(steps[k].value) == lo + k
  }

  /** Optional steps laid out by rank give an ordered trace, holding exactly
      the present steps. */
  lemma {:induction false} PresentOrdered(steps: seq<Option<Release>>, lo: nat)
    requires RankedFrom(steps, lo)
    ensures Ordered(Present(steps))
    ensures forall e :: e in Present(steps) <==> Some(e) in steps
    ensures forall e :: e in Present(steps) ==> Rank(e) >= lo
  {
    if steps != [] {
      var rest := steps[1..];
      assert RankedFrom(rest, lo + 1) by {
        forall k | 0 <= k < |rest| && rest[k].Some?
          ensures Rank(rest[k].value) == lo + 1 + k
        {
          assert rest[k] == steps[k + 1];
        }
      }
      PresentOrdered(rest, lo + 1);
      assert steps == [steps[0]] + rest;
      forall e ensures Some(e) in steps <==> (steps[0] == Some(e) || Some(e) in rest) {
      }
    }
  }

  /** The step of rank `k` that `CloseAsync` takes on `s`, if it takes it. */
  function CloseSlot(s: Session, k: nat): (r: Option<Release>)
    requires k < 10
    ensures r.Some? ==> Rank(r.value) == k
  {
    if k == 0 then (if s.cancellation then Some(Cancel) else None)
    else if k == 1 then (if s.pump then Some(AwaitPump) else None)
    else if k == 2 then (if s.thread != 0 then Some(CloseThread(s.thread)) else None)
    else if k == 3 then (if s.process != 0 then Some(CloseProcess(s.process)) else None)
    else if k == 4 then (if s.outputStream.Some? then Some(DisposeOutputStream(s.outputStream.value)) else None)
    else if k == 5 then (if s.inputStream.Some? then Some(DisposeInputStream(s.inputStream.value)) else None)
    else if k == 6 then (if s.outputRead.Some? then Some(DisposeOutputRead(s.outputRead.value)) else None)
    else if k == 7 then (if s.inputWrite.Some? then Some(DisposeInputWrite(s.inputWrite.value)) else None)
    else if k == 8 then (if s.attrList != 0 then Some(FreeAttrList(s.attrList)) else None)
    else (if s.pty.Some? then Some(DisposePty(s.pty.value)) else None)
  }

  /** The steps `CloseAsync` takes on `s`, one slot per kind, by rank. */
  function CloseSteps(s: Session): (steps: seq<Option<Release>>)
    ensures |steps| == 10 && RankedFrom(steps, 0)
  {
    seq(10, k requires 0 <= k < 10 => CloseSlot(s, k))
  }

  /** Without any step present, the trace is empty. */
  lemma {:induction false} NothingPresent(steps: seq<Option<Release>>)
    requires forall k :: 0 <= k < |steps| ==> steps[k].None?
    ensures Present(steps) == []
  {
    if steps != [] {
      NothingPresent(steps[1..]);
    }
  }

  /** A step is in the close trace exactly when the slot of its rank holds it. */
  lemma InCloseTrace(s: Session, e: Release)
    ensures e in Present(CloseSteps(s)) <==> CloseSlot(s, Rank(e)) == Some(e)
  {
    var steps := CloseSteps(s);
    PresentOrdered(steps, 0);
    if Some(e) in steps {
      var k :| 0 <= k < |steps| && steps[k] == Some(e);
      assert Rank(e) == k;
    }
    assert steps[Rank(e)] == CloseSlot(s, Rank(e));
  }

  /** The native steps and the pseudo-console disposal of the close trace. */
  lemma CloseTraceMembers(s: Session)
    ensures forall h: Handle :: DisposePty(h) in Present(CloseSteps(s)) <==> s.pty == Some(h)
    ensures forall h: Handle :: FreeAttrList(h) in Present(CloseSteps(s)) <==> s.attrList != 0 && h == s.attrList
    ensures forall h: Handle :: CloseThread(h) in Present(CloseSteps(s)) <==> s.thread != 0 && h == s.thread
    ensures forall h: Handle :: CloseProcess(h) in Present(CloseSteps(s)) <==> s.process != 0 && h == s.process
  {
    forall h: Handle
      ensures DisposePty(h) in Present(CloseSteps(s)) <==> s.pty == Some(h)
      ensures FreeAttrList(h) in Present(CloseSteps(s)) <==> s.attrList != 0 && h == s.attrList
      ensures CloseThread(h) in Present(CloseSteps(s)) <==> s.thread != 0 && h == s.thread
      ensures CloseProcess(h) in Present(CloseSteps(s)) <==> s.process != 0 && h == s.process
    {
      InCloseTrace(s, DisposePty(h));
      InCloseTrace(s, FreeAttrList(h));
      InCloseTrace(s, CloseThread(h));
      InCloseTrace(s, CloseProcess(h));
    }
  }

  /** The cancellation, the wait for the pump, and the disposals of the
      streams and pipe ends in the close trace. */
  lemma CloseTraceManaged(s: Session)
    ensures Cancel in Present(CloseSteps(s)) <==> s.cancellation
    ensures AwaitPump in Present(CloseSteps(s)) <==> s.pump
    ensures forall h: Handle :: DisposeOutputStream(h) in Present(CloseSteps(s)) <==> s.outputStream == Some(h)
    ensures forall h: Handle :: DisposeInputStream(h) in Present(CloseSteps(s)) <==> s.inputStream == Some(h)
    ensures forall h: Handle :: DisposeOutputRead(h) in Present(CloseSteps(s)) <==> s.outputRead == Some(h)
    ensures forall h: Handle :: DisposeInputWrite(h) in Present(CloseSteps(s)) <==> s.inputWrite == Some(h)
  {
    InCloseTrace(s, Cancel);
    InCloseTrace(s, AwaitPump);
    forall h: Handle
      ensures DisposeOutputStream(h) in Present(CloseSteps(s)) <==> s.outputStream == Some(h)
      ensures DisposeInputStream(h) in Present(CloseSteps(s)) <==> s.inputStream == Some(h)
      ensures DisposeOutputRead(h) in Present(CloseSteps(s)) <==> s.outputRead == Some(h)
      ensures DisposeInputWrite(h) in Present(CloseSteps(s)) <==> s.inputWrite == Some(h)
    {
      InCloseTrace(s, DisposeOutputStream(h));
      InCloseTrace(s, DisposeInputStream(h));
      InCloseTrace(s, DisposeOutputRead(h));
      InCloseTrace(s, DisposeInputWrite(h));
    }
  }

  /** The managed objects a close disposes. */
  function Disposables(s: Session): set<Handle> {
    (if s.outputStream.Some? then {s.outputStream.value} else {})
    + (if s.inputStream.Some? then {s.inputStream.value} else {})
    + (if s.outputRead.Some? then {s.outputRead.value} else {})
    + (if s.inputWrite.Some? then {s.inputWrite.value} else {})
    + (if s.pty.Some? then {s.pty.value} else {})
  }

  /** `CloseAsync()`, as written: the session afterwards and the steps taken.
      The steps follow the required order, the pseudo-console is disposed last,
      and each step is taken exactly when its field is set: the cancellation
      and the wait for the pump, every native value and every disposal.
      Afterwards only those two fields are cleared; the streams, pipe ends and
      process information keep their values. */
  function Close(s: Session): (r: (Session, seq<Release>))
    ensures Ordered(r.1)
    ensures s.pty.Some? ==> |r.1| > 0 && r.1[|r.1| - 1] == DisposePty(s.pty.value)
    ensures forall h: Handle :: DisposePty(h) in r.1 <==> s.pty == Some(h)
    ensures forall h: Handle :: FreeAttrList(h) in r.1 <==> s.attrList != 0 && h == s.attrList
    ensures forall h: Handle :: CloseThread(h) in r.1 <==> s.thread != 0 && h == s.thread
    ensures forall h: Handle :: CloseProcess(h) in r.1 <==> s.process != 0 && h == s.process
    ensures Cancel in r.1 <==> s.cancellation
    ensures AwaitPump in r.1 <==> s.pump
    ensures forall h: Handle :: DisposeOutputStream(h) in r.1 <==> s.outputStream == Some(h)
    ensures forall h: Handle :: DisposeInputStream(h) in r.1 <==> s.inputStream == Some(h)
    ensures forall h: Handle :: DisposeOutputRead(h) in r.1 <==> s.outputRead == Some(h)
    ensures forall h: Handle :: DisposeInputWrite(h) in r.1 <==> s.inputWrite == Some(h)
    ensures r.0.pty.None? && r.0.attrList == 0
    ensures r.0 == s.(pty := None, attrList := 0, disposed := s.disposed + Disposables(s))
  {
    var steps := CloseSteps(s);
    PresentOrdered(steps, 0);
    var trace := Present(steps);
    CloseTraceMembers(s);
    CloseTraceManaged(s);
    if s.pty.Some? then
      LastIsHighest(trace, DisposePty(s.pty.value));
      (s.(pty := None, attrList := 0, disposed := s.disposed + Disposables(s)), trace)
    else
      (s.(pty := None, attrList := 0, disposed := s.disposed + Disposables(s)), trace)
  }

  /** In an ordered trace, a step of the highest rank present is the last. */
  lemma LastIsHighest(trace: seq<Release>, e: Release)
    requires Ordered(trace)
    requires e in trace && Rank(e) == 9
    ensures |trace| > 0 && trace[|trace| - 1] == e
  {
    var i :| 0 <= i < |trace| && trace[i] == e;
  }

  /** Closing a running session cancels the pump and waits for it before
      anything is released, and disposes the pseudo-console last. */
  lemma PumpAwaitedBeforeRelease(s: Session)
    requires Running(s)
    ensures var trace := Close(s).1;
            && |trace| == 10 && trace[0] == Cancel && trace[1] == AwaitPump
            && trace[9] == DisposePty(s.pty.value)
  {
    var trace := Close(s).1;
    forall k | 0 <= k < 10 ensures CloseSteps(s)[k].Some? {
    }
    PresentAll(CloseSteps(s));
  }

  /** With every step present, the trace holds them all in order. */
  lemma {:induction false} PresentAll(steps: seq<Option<Release>>)
    requires forall k :: 0 <= k < |steps| ==> steps[k].Some?
    ensures |Present(steps)| == |steps|
    ensures forall k :: 0 <= k < |steps| ==> Present(steps)[k] == steps[k].value
  {
    if steps != [] {
      PresentAll(steps[1..]);
    }
  }

  /** Closing a session that never started releases nothing and changes
      nothing. */
  lemma CloseBeforeStart()
    ensures Close(Initial) == (Initial, [])
  {
    NothingPresent(CloseSteps(Initial));
  }

  /** A second close frees neither the attribute list nor the pseudo-console
      again. */
  lemma SecondCloseSkipsConsoleAndAttributes(s: Session)
    ensures forall e :: e in Close(Close(s).0).1 ==> !e.FreeAttrList? && !e.DisposePty?
  {
  }

  /** After a close, input is no longer skipped: the stream was disposed but
      kept, so a write throws. */
  lemma WriteAfterCloseThrows(s: Session, text: string)
    requires Running(s)
    ensures WriteInput(Close(s).0, text) == ThrowsDisposed(s.inputStream.value)
  {
  }

  /** After a close the pseudo-console is gone, so the session may be started
      again; the new streams take input even when the kernel hands out the
      values of handles the close released. */
  lemma RestartAfterClose(s: Session, commandLine: string, cols: int, rows: int, f: Fresh)
    requires ValidFresh(f)
    ensures var restarted := Start(Close(s).0, commandLine, cols, rows, None, f);
            && restarted.outcome.Success?
            && forall t :: WriteInput(restarted.session, t) == Written(f.inputStream, t)
  {
  }

  /** A running session closed twice closes its thread handle twice: the
      process information is never reset. */
  lemma SecondCloseClosesThreadAgain()
    ensures var s := Start(Initial, "ssh", 120, 30, None, Fresh(1, 2, 3, 4, 5, 6, 7, 8)).session;
            && CloseThread(5) in Close(s).1
            && CloseThread(5) in Close(Close(s).0).1
  {
  }

  /** `CloseAsync` as evidently intended: the same steps as the close as
      written, with the process information reset alongside the attribute
      list and pseudo-console, so no native value is ever released twice. */
  function CloseOnce(s: Session): (r: (Session, seq<Release>))
    ensures Ordered(r.1)
    ensures s.pty.Some? ==> |r.1| > 0 && r.1[|r.1| - 1] == DisposePty(s.pty.value)
    ensures forall e :: Native(e) && e in r.1 ==> e in Close(s).1
    ensures r.1 == Close(s).1
    ensures r.0 == s.(pty := None, attrList := 0, thread := 0, process := 0, disposed := s.disposed + Disposables(s))
    ensures r.0.pty.None? && r.0.attrList == 0 && r.0.thread == 0 && r.0.process == 0
  {
    var closed := Close(s);
    (closed.0.(thread := 0, process := 0), closed.1)
  }

  /** With the intended close, a second close releases no native value. */
  lemma CloseOnceIsIdempotent(s: Session)
    ensures forall e :: e in CloseOnce(CloseOnce(s).0).1 ==> !Native(e) && !e.DisposePty?
  {
  }
}
