/** The objects of sylar/fd_manager.cpp and the hooked calls of sylar/hook.cpp that use them, each
    against its function on values in `FdTable`. */
module FdManagers {
  import opened Wrappers
  import opened FdTable

  /** An open file with its status flags as the word the kernel keeps. */
  datatype RawFile = RawFile(socket: bool, flags: bv32)

  function InParts(f: RawFile): File {
    File(f.socket, OfBits(f.flags))
  }

  /** The kernel's own calls, as far as they concern status flags. */
  class Kernel {
    var raw: map<int, RawFile>

    ghost function Files(): Files
      reads this
    {
      map fd | fd in raw :: InParts(raw[fd])
    }

    constructor ()
      ensures Files() == map[]
    {
      raw := map[];
    }

    method FcntlSet(fd: int, arg: bv32) returns (done: bool)
      modifies this
      ensures done == (fd in old(raw)) && Files() == KernelSet(old(Files()), fd, OfBits(arg))
    {
      hide OfBits;
      done := fd in raw;
      if done {
        KernelMerges(raw[fd].flags, arg);
        raw := raw[fd := raw[fd].(flags := (raw[fd].flags & !SETTABLE) | (arg & SETTABLE))];
      }
    }

    method FcntlGet(fd: int) returns (flags: bv32)
      ensures OfBits(flags) == KernelGet(Files(), fd)
    {
      flags := if fd in raw then raw[fd].flags else 0xFFFF_FFFF;
    }
  }

  class FdCtx {
    var isInit: bool
    var isSocket: bool
    var isClose: bool
    var userNonblock: bool
    var sysNonblock: bool
    const fd: int

    ghost function View(): Ctx
      reads this
    {
      Ctx(isInit, isSocket, isClose, userNonblock, sysNonblock)
    }

    constructor (fd: int, kernel: Kernel)
      modifies kernel
      ensures View() == InitCtx(old(kernel.Files()), fd) && this.fd == fd
      ensures kernel.Files() == InitFiles(old(kernel.Files()), fd)
    {
      this.fd := fd;
      isInit, isSocket, isClose, userNonblock, sysNonblock := false, false, false, false, false;
      new;
      Init(kernel);
    }

    /** `init`; `fstat` succeeds on open descriptors. A second call changes nothing. */
    method Init(kernel: Kernel)
      modifies this, kernel
      ensures View() == if old(isInit) then old(View()) else InitCtx(old(kernel.Files()), fd)
      ensures kernel.Files() == if old(isInit) then old(kernel.Files()) else InitFiles(old(kernel.Files()), fd)
    {
      hide OfBits;
      if isInit {
        return;
      }
      if fd !in kernel.raw {
        isInit, isSocket := false, false;
      } else {
        isInit, isSocket := true, kernel.raw[fd].socket;
      }
      if isSocket {
        var flags := kernel.FcntlGet(fd);
        OrIsOn(flags);
        BitIsPart(flags);
        if flags & O_NONBLOCK == 0 {
          var done := kernel.FcntlSet(fd, flags | O_NONBLOCK);
        }
        sysNonblock := true;
      } else {
        sysNonblock := false;
      }
      userNonblock := false;
      isClose := false;
    }
  }

  lemma BitIsPart(w: bv32)
    ensures OfBits(w).nonblock == (w & O_NONBLOCK != 0)
  {
  }

  class FdManager {
    var datas: seq<FdCtx?>

    /** No two descriptors share a context. */
    ghost predicate Valid()
      reads this
    {
      |datas| >= 64 && forall i, j | 0 <= i < j < |datas| :: datas[i] != null ==> datas[i] != datas[j]
    }

    ghost function Owned(): set<FdCtx>
      reads this
    {
      set c: FdCtx | c in datas
    }

    ghost function Entries(): (t: Table)
      requires Valid()
      reads this, Owned()
      ensures |t| == |datas|
    {
      seq(|datas|, i requires 0 <= i < |datas| reads this, Owned() => if datas[i] == null then None else Some(datas[i].View()))
    }

    constructor ()
      ensures Valid() && Entries() == START.table && Owned() == {}
    {
      datas := seq(64, i => null);
    }

    /** Every index is in range for descriptors from -1 on. */
    method Get(fd: int, autoCreate: bool, kernel: Kernel) returns (ctx: FdCtx?)
      requires Valid() && fd >= -1
      modifies this, kernel
      ensures Valid() && fresh(Owned() - old(Owned()))
      ensures State(Entries(), kernel.Files()) == AfterGet(State(old(Entries()), old(kernel.Files())), fd, autoCreate)
      ensures ctx == if 0 <= fd < |datas| then datas[fd] else null
      ensures !autoCreate ==> datas == old(datas) && kernel.raw == old(kernel.raw)
    {
      if fd == -1 {
        return null;
      }
      if |datas| <= fd {
        if !autoCreate {
          return null;
        }
      } else if datas[fd] != null || !autoCreate {
        return datas[fd];
      }
      ctx := new FdCtx(fd, kernel);
      if fd >= |datas| {
        datas := datas + seq(fd * 3 / 2 - |datas|, i => null);
      }
      datas := datas[fd := ctx];
    }

    /** The bound the code tests lets one index out of range through: the size itself. */
    method Del(fd: int)
      requires Valid() && fd >= 0 && fd != |datas|
      modifies this
      ensures Valid() && Owned() <= old(Owned())
      ensures Entries() == AfterDel(old(Entries()), fd)
    {
      if |datas| < fd {
        return;
      }
      datas := datas[fd := null];
    }
  }

  // ---------------------------------------------------------------- the hooked calls

  ghost function StateOf(m: FdManager, kernel: Kernel): State
    requires m.Valid()
    reads m, m.Owned(), kernel
  {
    State(m.Entries(), kernel.Files())
  }

  /** `socket`, when the kernel answers with `fd`. */
  method Socket(m: FdManager, kernel: Kernel, hook: bool, fd: int, file: RawFile) returns (r: int)
    requires m.Valid() && fd >= -1
    modifies m, kernel
    ensures m.Valid() && fresh(m.Owned() - old(m.Owned())) && r == fd
    ensures StateOf(m, kernel) == Step(old(StateOf(m, kernel)), Op.Socket(hook, fd, InParts(file)))
  {
    hide InParts;
    if fd >= 0 {
      kernel.raw := kernel.raw[fd := file];
    }
    if !hook || fd == -1 {
      return fd;
    }
    var ctx := m.Get(fd, true, kernel);
    r := fd;
  }

  method Accept(m: FdManager, kernel: Kernel, fd: int, file: RawFile) returns (r: int)
    requires m.Valid() && fd >= -1
    modifies m, kernel
    ensures m.Valid() && fresh(m.Owned() - old(m.Owned())) && r == fd
    ensures StateOf(m, kernel) == Step(old(StateOf(m, kernel)), Op.Accept(fd, InParts(file)))
  {
    hide InParts;
    if fd >= 0 {
      kernel.raw := kernel.raw[fd := file];
      var ctx := m.Get(fd, true, kernel);
    }
    r := fd;
  }

  /** `Del` is called only for a descriptor that has an entry, so never for the size. */
  method Close(m: FdManager, kernel: Kernel, hook: bool, fd: int) returns (done: bool)
    requires m.Valid() && fd >= -1
    modifies m, kernel
    ensures m.Valid() && m.Owned() <= old(m.Owned()) && done == (fd in old(kernel.Files()))
    ensures StateOf(m, kernel) == Step(old(StateOf(m, kernel)), Op.Close(hook, fd))
  {
    hide InParts;
    done := fd in kernel.raw;
    if hook {
      var ctx := m.Get(fd, false, kernel);
      if ctx != null {
        m.Del(fd);
      }
    }
    kernel.raw := kernel.raw - {fd};
  }

  /** `fcntl` with F_SETFL, on the word itself. */
  method SetFl(m: FdManager, kernel: Kernel, fd: int, arg: bv32) returns (done: bool)
    requires m.Valid() && fd >= -1
    modifies m, m.Owned(), kernel
    ensures m.Valid() && m.datas == old(m.datas) && done == (fd in old(kernel.Files()))
    ensures StateOf(m, kernel) == Step(old(StateOf(m, kernel)), Op.SetFl(fd, OfBits(arg)))
  {
    hide OfBits, InParts;
    var ctx := m.Get(fd, false, kernel);
    if ctx == null || ctx.isClose || !ctx.isSocket {
      done := kernel.FcntlSet(fd, arg);
      return;
    }
    BitIsPart(arg);
    OrIsOn(arg);
    AndNotIsOff(arg);
    ctx.userNonblock := arg & O_NONBLOCK != 0;
    if ctx.sysNonblock {
      done := kernel.FcntlSet(fd, arg | O_NONBLOCK);
    } else {
      done := kernel.FcntlSet(fd, arg & !O_NONBLOCK);
    }
  }

  /** `fcntl` with F_GETFL: the one word with the parts the user is to see. */
  method GetFl(m: FdManager, kernel: Kernel, fd: int) returns (flags: bv32)
    requires m.Valid() && fd >= -1
    modifies m, kernel
    ensures m.Valid() && m.datas == old(m.datas) && kernel.raw == old(kernel.raw)
    ensures OfBits(flags) == GetFlResult(StateOf(m, kernel), fd)
    ensures forall w: bv32 :: OfBits(w) == GetFlResult(StateOf(m, kernel), fd) ==> w == flags
  {
    hide OfBits, InParts;
    flags := kernel.FcntlGet(fd);
    var ctx := m.Get(fd, false, kernel);
    if ctx != null && !ctx.isClose && ctx.isSocket {
      OrIsOn(flags);
      AndNotIsOff(flags);
      flags := if ctx.userNonblock then flags | O_NONBLOCK else flags & !O_NONBLOCK;
    }
    forall w: bv32 | OfBits(w) == OfBits(flags) ensures w == flags {
      PartsAreTheWord(w, flags);
    }
  }
}
