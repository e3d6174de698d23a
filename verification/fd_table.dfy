/** The descriptor layer of sylar/fd_manager.cpp and sylar/hook.cpp on values: a growing table of
    contexts over the kernel's files, and the flags a user of the hooked calls sees. */
module FdTable {
  import opened Wrappers

  const O_NONBLOCK: bv32 := 0x800

  /** The status flags F_SETFL can change: O_APPEND, O_NONBLOCK, O_ASYNC, O_DIRECT, O_NOATIME. */
  const SETTABLE: bv32 := 0x46C00

  /** A word of status flags taken apart: O_NONBLOCK, the others that can be set, the rest. */
  datatype Word = Word(nonblock: bool, settable: bv32, fixed: bv32)

  function OfBits(w: bv32): Word {
    Word(w & O_NONBLOCK != 0, w & SETTABLE & !O_NONBLOCK, w & !SETTABLE)
  }

  /** What a failed call returns. */
  const FAILED: Word := OfBits(0xFFFF_FFFF)

  function WithNonBlock(w: Word, on: bool): Word {
    w.(nonblock := on)
  }

  /** What the kernel stores for F_SETFL. */
  function Merged(w: Word, arg: Word): Word {
    Word(arg.nonblock, arg.settable, w.fixed)
  }

  // The parts stand for the bits.

  lemma OrIsOn(w: bv32)
    ensures OfBits(w | O_NONBLOCK) == WithNonBlock(OfBits(w), true)
  {
  }

  lemma AndNotIsOff(w: bv32)
    ensures OfBits(w & !O_NONBLOCK) == WithNonBlock(OfBits(w), false)
  {
  }

  lemma KernelMerges(w: bv32, arg: bv32)
    ensures OfBits((w & !SETTABLE) | (arg & SETTABLE)) == Merged(OfBits(w), OfBits(arg))
  {
  }

  /** The numbers of the flags: bit 11 is O_NONBLOCK, and bits 10, 11, 13, 14 and 18 can be set. */
  lemma FlagNumbers(w: bv32)
    ensures OfBits(w).nonblock <==> (w >> 11) & 1 == 1
    ensures OfBits(w).settable == w & 0x4_6400 && OfBits(w).fixed == w & 0xFFFB_93FF
  {
  }

  lemma PartsAreTheWord(w: bv32, v: bv32)
    requires OfBits(w) == OfBits(v)
    ensures w == v
  {
  }

  /** An open file of the kernel. */
  datatype File = File(socket: bool, flags: Word)
  type Files = map<int, File>

  /** The flags of an `FdCtx`. */
  datatype Ctx = Ctx(isInit: bool, isSocket: bool, isClose: bool, userNonblock: bool, sysNonblock: bool)
  type Table = t: seq<Option<Ctx>> | |t| >= 64 witness seq(64, i => None)

  datatype State = State(table: Table, files: Files)

  // ---------------------------------------------------------------- the kernel

  function KernelSet(files: Files, fd: int, arg: Word): Files {
    if fd in files then files[fd := files[fd].(flags := Merged(files[fd].flags, arg))] else files
  }

  function KernelGet(files: Files, fd: int): Word {
    if fd in files then files[fd].flags else FAILED
  }

  /** A failed call returns -1. */
  lemma ClosedFails(files: Files, fd: int)
    requires fd !in files
    ensures KernelGet(files, fd) == OfBits(0xFFFF_FFFF)
  {
  }

  // ---------------------------------------------------------------- the table

  function Slot(table: Table, fd: int): Option<Ctx> {
    if 0 <= fd < |table| then table[fd] else None
  }

  /** `FdCtx::init` on a new object. */
  function InitCtx(files: Files, fd: int): Ctx {
    var socket := fd in files && files[fd].socket;
    Ctx(fd in files, socket, false, false, socket)
  }

  function InitFiles(files: Files, fd: int): Files {
    if fd in files && files[fd].socket && !files[fd].flags.nonblock
    then KernelSet(files, fd, WithNonBlock(files[fd].flags, true)) else files
  }

  function Grown(table: Table, fd: nat): (r: Table)
    ensures |r| == if fd < |table| then |table| else if fd * 3 / 2 < |table| then |table| else fd * 3 / 2
    ensures forall i | 0 <= i < |r| :: r[i] == Slot(table, i)
  {
    if fd < |table| || fd * 3 / 2 < |table| then table else table + seq(fd * 3 / 2 - |table|, i => None)
  }

  /** `FdManager::get`. */
  function AfterGet(s: State, fd: int, autoCreate: bool): State {
    if fd < 0 || !autoCreate || Slot(s.table, fd).Some? then s
    else State(Grown(s.table, fd)[fd := Some(InitCtx(s.files, fd))], InitFiles(s.files, fd))
  }

  /** The table grows only for a new context behind its end, then to half as much again as the descriptor,
      which has room for it. */
  lemma GetGrowsByHalf(s: State, fd: int, autoCreate: bool)
    ensures |AfterGet(s, fd, autoCreate).table| == if autoCreate && fd >= |s.table| then fd + fd / 2 else |s.table|
    ensures autoCreate && fd >= 0 ==> fd < |AfterGet(s, fd, autoCreate).table|
  {
  }

  /** `FdManager::del`, where it stays in range. */
  function AfterDel(table: Table, fd: int): Table {
    if 0 <= fd < |table| then table[fd := None] else table
  }

  /** The index that `get` and `del` use on a table of a given size, if they use one. */
  function GetIndex(size: nat, fd: int): Option<int> {
    if fd == -1 || size <= fd then None else Some(fd)
  }

  function DelIndex(size: nat, fd: int): Option<int> {
    if size < fd then None else Some(fd)
  }

  predicate InRange(index: Option<int>, size: nat) {
    index.Some? ==> 0 <= index.value < size
  }

  /** `get` is safe for every descriptor from -1 on; `del` is not for the size itself, which
      `close` never gives it, as it has found an entry before. */
  lemma SafeIndices(size: nat, fd: int)
    ensures InRange(GetIndex(size, fd), size) <==> fd >= -1
    ensures InRange(DelIndex(size, fd), size) <==> fd >= 0 && fd != size
  {
  }

  // ---------------------------------------------------------------- the hooked calls

  datatype Op =
    | Socket(hook: bool, fd: int, file: File)   // what the kernel answers: -1, or a new descriptor
    | Accept(fd: int, file: File)
    | Foreign(fd: int, file: File)              // open, pipe, dup and the like, which are not hooked
    | Close(hook: bool, fd: int)
    | SetFl(fd: int, arg: Word)
    | GetFl(fd: int)

  function AfterCreate(s: State, fd: int, file: File, managed: bool): State {
    if fd < 0 then s
    else
      var made := s.(files := s.files[fd := file]);
      if managed then AfterGet(made, fd, true) else made
  }

  function AfterClose(s: State, hook: bool, fd: int): State {
    State(if hook && Slot(s.table, fd).Some? then AfterDel(s.table, fd) else s.table, s.files - {fd})
  }

  /** The test both commands make: without a context of a live socket the call is the kernel's. */
  predicate Hooked(s: State, fd: int) {
    var c := Slot(s.table, fd);
    c.Some? && !c.value.isClose && c.value.isSocket
  }

  function AfterSetFl(s: State, fd: int, arg: Word): State {
    if !Hooked(s, fd) then s.(files := KernelSet(s.files, fd, arg))
    else
      var c := s.table[fd].value;
      State(s.table[fd := Some(c.(userNonblock := arg.nonblock))],
            KernelSet(s.files, fd, WithNonBlock(arg, c.sysNonblock)))
  }

  function GetFlResult(s: State, fd: int): Word {
    var arg := KernelGet(s.files, fd);
    if !Hooked(s, fd) then arg else WithNonBlock(arg, s.table[fd].value.userNonblock)
  }

  function Step(s: State, op: Op): State {
    match op
    case Socket(hook, fd, file) => AfterCreate(s, fd, file, hook)
    case Accept(fd, file) => AfterCreate(s, fd, file, true)
    case Foreign(fd, file) => AfterCreate(s, fd, file, false)
    case Close(hook, fd) => AfterClose(s, hook, fd)
    case SetFl(fd, arg) => AfterSetFl(s, fd, arg)
    case GetFl(fd) => s
  }

  function Run(s: State, ops: seq<Op>): State
    decreases |ops|
  {
    if ops == [] then s else Run(Step(s, ops[0]), ops[1..])
  }

  // ---------------------------------------------------------------- what holds

  const START: State := State(seq(64, i => None), map[])

  /** A context belongs to an open file, says whether it is a socket, and a socket's kernel flag
      is on. */
  ghost predicate SlotInv(s: State, fd: int) {
    Slot(s.table, fd).Some? ==>
      var c := Slot(s.table, fd).value;
      && fd in s.files && c.isInit && !c.isClose
      && c.isSocket == s.files[fd].socket && c.sysNonblock == c.isSocket
      && (c.isSocket ==> s.files[fd].flags.nonblock)
  }

  ghost predicate Inv(s: State) {
    forall fd :: SlotInv(s, fd)
  }

  /** The kernel hands out descriptors that are not open; a managed descriptor is closed with the
      hook on. */
  ghost predicate Allowed(s: State, op: Op) {
    match op
    case Socket(_, fd, _) => fd !in s.files
    case Accept(fd, _) => fd !in s.files
    case Foreign(fd, _) => fd !in s.files
    case Close(hook, fd) => hook || Slot(s.table, fd).None?
    case _ => true
  }

  ghost predicate AllAllowed(s: State, ops: seq<Op>)
    decreases |ops|
  {
    ops == [] || (Allowed(s, ops[0]) && AllAllowed(Step(s, ops[0]), ops[1..]))
  }

  /** The files as a user of the hooked calls sees them. */
  ghost function Seen(s: State): Files {
    map fd | fd in s.files ::
      if Hooked(s, fd) then s.files[fd].(flags := WithNonBlock(s.files[fd].flags, s.table[fd].value.userNonblock))
      else s.files[fd]
  }

  /** A kernel without the layer, in which hooked sockets begin blocking. */
  function PlainStep(files: Files, op: Op): Files {
    match op
    case Socket(hook, fd, file) =>
      if fd < 0 then files else files[fd := if hook then Begun(file) else file]
    case Accept(fd, file) => if fd < 0 then files else files[fd := Begun(file)]
    case Foreign(fd, file) => if fd < 0 then files else files[fd := file]
    case Close(_, fd) => files - {fd}
    case SetFl(fd, arg) => KernelSet(files, fd, arg)
    case GetFl(fd) => files
  }

  function Begun(file: File): File {
    if file.socket then file.(flags := WithNonBlock(file.flags, false)) else file
  }

  function PlainRun(files: Files, ops: seq<Op>): Files
    decreases |ops|
  {
    if ops == [] then files else PlainRun(PlainStep(files, ops[0]), ops[1..])
  }

  // ---------------------------------------------------------------- one call

  /** No call touches the entry of another descriptor, and the table never shrinks. */
  lemma OthersStay(s: State, op: Op, fd: int)
    requires fd != op.fd
    ensures Slot(Step(s, op).table, fd) == Slot(s.table, fd)
    ensures |Step(s, op).table| >= |s.table|
    ensures fd in Step(s, op).files <==> fd in s.files
    ensures fd in s.files ==> Step(s, op).files[fd] == s.files[fd]
  {
  }

  lemma CreateKeeps(s: State, fd: int, file: File, managed: bool)
    requires Inv(s) && fd !in s.files && fd >= 0
    ensures var t := AfterCreate(s, fd, file, managed);
            SlotInv(t, fd) && fd in t.files
            && Seen(t)[fd] == if managed then Begun(file) else file
  {
    assert SlotInv(s, fd);
  }

  lemma SetFlKeeps(s: State, fd: int, arg: Word)
    requires Inv(s)
    ensures var t := AfterSetFl(s, fd, arg);
            SlotInv(t, fd)
            && (fd in s.files ==> fd in t.files && Seen(t)[fd] == KernelSet(Seen(s), fd, arg)[fd])
            && (fd !in s.files ==> fd !in t.files)
  {
    assert SlotInv(s, fd);
  }

  lemma CloseKeeps(s: State, hook: bool, fd: int)
    requires Inv(s) && (hook || Slot(s.table, fd).None?)
    ensures var t := AfterClose(s, hook, fd); SlotInv(t, fd) && fd !in t.files
  {
  }

  lemma StepAtItsFd(s: State, op: Op)
    requires Inv(s) && Allowed(s, op)
    ensures var t, plain := Step(s, op), PlainStep(Seen(s), op);
            && SlotInv(t, op.fd) && (op.fd in t.files <==> op.fd in plain)
            && (op.fd in t.files ==> Seen(t)[op.fd] == plain[op.fd])
  {
    hide AfterCreate, AfterClose, AfterSetFl, SlotInv, Begun, Hooked;
    assert SlotInv(s, op.fd);
    match op
    case Socket(hook, fd, file) => CreateAllowed(s, fd, file, hook);
    case Accept(fd, file) => CreateAllowed(s, fd, file, true);
    case Foreign(fd, file) => CreateAllowed(s, fd, file, false);
    case Close(hook, fd) => CloseKeeps(s, hook, fd);
    case SetFl(fd, arg) => SetFlKeeps(s, fd, arg);
    case GetFl(fd) =>
  }

  lemma CreateAllowed(s: State, fd: int, file: File, managed: bool)
    requires Inv(s) && fd !in s.files
    ensures var t := AfterCreate(s, fd, file, managed);
            SlotInv(t, fd) && (fd < 0 ==> t == s)
            && (fd >= 0 ==> fd in t.files && Seen(t)[fd] == if managed then Begun(file) else file)
  {
    assert SlotInv(s, fd);
    if fd >= 0 {
      CreateKeeps(s, fd, file, managed);
    }
  }

  lemma StepElsewhere(s: State, op: Op, fd: int)
    requires Inv(s) && fd != op.fd
    ensures SlotInv(Step(s, op), fd)
    ensures fd in Step(s, op).files <==> fd in PlainStep(Seen(s), op)
    ensures fd in Step(s, op).files ==> Seen(Step(s, op))[fd] == PlainStep(Seen(s), op)[fd]
  {
    hide Step, Slot;
    assert SlotInv(s, fd);
    OthersStay(s, op, fd);
    SlotIsEntry(s.table, fd);
    SlotIsEntry(Step(s, op).table, fd);
  }

  lemma SlotIsEntry(table: Table, fd: int)
    ensures Slot(table, fd).Some? ==> 0 <= fd < |table| && table[fd] == Slot(table, fd)
  {
  }

  lemma SeenFiles(s: State)
    ensures forall fd :: fd in Seen(s) <==> fd in s.files
  {
  }

  /** Every call keeps the invariant, and to its user it is the same call on the plain kernel. */
  lemma StepRefines(s: State, op: Op)
    requires Inv(s) && Allowed(s, op)
    ensures Inv(Step(s, op))
    ensures Seen(Step(s, op)) == PlainStep(Seen(s), op)
  {
    hide Step, PlainStep, SlotInv, Seen;
    var t := Step(s, op);
    StepAtItsFd(s, op);
    var seen, plain := Seen(t), PlainStep(Seen(s), op);
    SeenFiles(t);
    forall fd ensures SlotInv(t, fd) {
      if fd != op.fd {
        StepElsewhere(s, op, fd);
      }
    }
    forall fd: int ensures fd in seen <==> fd in plain {
      if fd != op.fd {
        StepElsewhere(s, op, fd);
      }
    }
    forall fd | fd in seen ensures seen[fd] == plain[fd] {
      if fd != op.fd {
        StepElsewhere(s, op, fd);
      }
    }
  }

  /** F_GETFL answers what the plain kernel would. */
  lemma GetFlRefines(s: State, fd: int)
    requires Inv(s)
    ensures GetFlResult(s, fd) == KernelGet(Seen(s), fd)
  {
    assert SlotInv(s, fd);
  }

  // ---------------------------------------------------------------- every run

  /** Over every run the user sees the plain kernel. */
  lemma {:induction false} RunRefines(s: State, ops: seq<Op>)
    requires Inv(s) && AllAllowed(s, ops)
    ensures Inv(Run(s, ops)) && Seen(Run(s, ops)) == PlainRun(Seen(s), ops)
    decreases |ops|
  {
    hide Inv, Seen, Step, PlainStep, Allowed;
    if ops != [] {
      StepRefines(s, ops[0]);
      RunRefines(Step(s, ops[0]), ops[1..]);
    }
  }

  lemma StartIsInv()
    ensures Inv(START) && Seen(START) == map[]
  {
  }

  /** From the start, managed sockets never block in the kernel, whatever the user sets. */
  lemma ManagedNeverBlock(ops: seq<Op>, fd: int)
    requires AllAllowed(START, ops) && Hooked(Run(START, ops), fd)
    ensures var files := Run(START, ops).files; fd in files && files[fd].socket && files[fd].flags.nonblock
  {
    hide AllAllowed, Run, START, Seen;
    StartIsInv();
    RunRefines(START, ops);
    assert SlotInv(Run(START, ops), fd);
  }

  lemma {:induction false} PlainRunElsewhere(files: Files, ops: seq<Op>, fd: int)
    requires fd in files && forall i | 0 <= i < |ops| :: ops[i].fd != fd || ops[i].GetFl?
    ensures fd in PlainRun(files, ops) && PlainRun(files, ops)[fd] == files[fd]
    decreases |ops|
  {
    if ops != [] {
      assert ops[0].fd != fd || ops[0].GetFl?;
      PlainRunElsewhere(PlainStep(files, ops[0]), ops[1..], fd);
    }
  }

  /** F_GETFL gives the flags last set, however the other descriptors are used in between. */
  lemma ReadsLastSet(s: State, fd: int, arg: Word, ops: seq<Op>)
    requires Inv(s) && fd in s.files && AllAllowed(Step(s, SetFl(fd, arg)), ops)
    requires forall i | 0 <= i < |ops| :: ops[i].fd != fd || ops[i].GetFl?
    ensures GetFlResult(Run(Step(s, SetFl(fd, arg)), ops), fd) == Merged(GetFlResult(s, fd), arg)
  {
    hide Inv, Step, AllAllowed, GetFlResult, Hooked, Merged;
    var t := Step(s, SetFl(fd, arg));
    StepRefines(s, SetFl(fd, arg));
    RunRefines(t, ops);
    GetFlRefines(s, fd);
    GetFlRefines(Run(t, ops), fd);
    PlainRunElsewhere(Seen(t), ops, fd);
  }

  // ---------------------------------------------------------------- where it does not

  /** Closing with the hook off keeps the invariant exactly when the descriptor is not managed. */
  lemma CloseUnhooked(s: State, fd: int)
    requires Inv(s)
    ensures Inv(Step(s, Close(false, fd))) <==> Slot(s.table, fd).None?
  {
    if Slot(s.table, fd).None? {
      StepRefines(s, Close(false, fd));
    } else {
      assert !SlotInv(Step(s, Close(false, fd)), fd);
    }
  }

  /** Otherwise the entry outlives the file: F_GETFL on the closed descriptor fails with another
      value than -1 if the user had it blocking, and a blocking socket that is given the same number
      is neither made non-blocking nor does it begin with flags of its own. */
  lemma StaleEntry(s: State, fd: int, file: File)
    requires Inv(s) && Hooked(s, fd) && file.socket && !file.flags.nonblock
    ensures var closed := Step(s, Close(false, fd)); var again := Step(closed, Socket(true, fd, file));
            && (GetFlResult(closed, fd) == FAILED <==> s.table[fd].value.userNonblock)
            && again.files[fd] == file
            && GetFlResult(again, fd).nonblock == s.table[fd].value.userNonblock
  {
  }

  /** Such a state is reached by one call, and one more breaks the invariant. */
  lemma StaleEntryReached(file: File)
    requires file.socket && !file.flags.nonblock
    ensures var s := Run(START, [Socket(true, 3, file)]);
            && AllAllowed(START, [Socket(true, 3, file)]) && Inv(s) && Hooked(s, 3)
            && !s.table[3].value.userNonblock
            && !Inv(Step(s, Close(false, 3))) && GetFlResult(Step(s, Close(false, 3)), 3) != FAILED
  {
    var call := Socket(true, 3, file);
    StartIsInv();
    StepRefines(START, call);
    assert [call][1..] == [];
    var s := Step(START, call);
    assert Run(START, [call]) == s;
    assert s.table[3].value == Ctx(true, true, false, false, true);
    CloseUnhooked(s, 3);
    StaleEntry(s, 3, file);
  }

  /** A socket asked for with SOCK_NONBLOCK reads back as blocking; flags given at creation are seen
      unchanged exactly when it is no managed socket or was not asked to be non-blocking. */
  lemma CreationFlags(s: State, hook: bool, fd: int, file: File)
    requires Inv(s) && fd !in s.files && fd >= 0
    ensures GetFlResult(Step(s, Socket(hook, fd, file)), fd) == file.flags
            <==> !(hook && file.socket && file.flags.nonblock)
  {
    hide Inv, Seen, Step, GetFlResult;
    StepRefines(s, Socket(hook, fd, file));
    GetFlRefines(Step(s, Socket(hook, fd, file)), fd);
  }
}
