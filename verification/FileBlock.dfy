/** Sessions of a file-backed block device: validation before every transfer, and failure that sticks. */
module FileBlock {
  import opened Words

  const LIMIT: nat := 64
  const MAX_BYTES: nat := 0x10_0000
  const MAX_OFFSET: nat := 0x7fff_ffff_ffff_ffff

  const EINTR: nat := 4
  const EIO: nat := 5
  const ENOMEM: nat := 12
  const EOVERFLOW: nat := 75

  // ------------------------------------------------------------ The host

  datatype Call =
    | Open
    | Fstat(fd: int)
    | Lock(fd: int)
    | Transfer(fd: int, write: bool, offset: nat, size: nat)
    | Sync(fd: int)
    | Close(fd: int)

  datatype Answer = Done | Failed(errno: nat)

  datatype OpenAnswer = Opened(fd: nat) | NotOpened(errno: nat)

  datatype Capture = Known(identity: nat, linked: bool) | Unknown(errno: nat)

  datatype Stat = Stat(regular: bool, size: int, capture: Capture) | StatFailed(errno: nat)

  datatype TransferAnswer = Bytes(count: nat) | NotMoved(errno: nat)

  /** What the host would answer to a call made at each position of its log: any host at all. */
  datatype Oracle = Oracle(
    open: nat -> OpenAnswer, stat: nat -> Stat, lock: nat -> Answer, transfer: nat -> TransferAnswer, finish: nat -> Answer)

  class Host {
    const oracle: Oracle
    var log: seq<Call>

    constructor (oracle: Oracle)
      ensures this.oracle == oracle && log == []
    {
      this.oracle, log := oracle, [];
    }

    method AskOpen() returns (a: OpenAnswer)
      modifies this
      ensures log == old(log) + [Open] && a == oracle.open(|old(log)|)
    {
      a := oracle.open(|log|);
      log := log + [Open];
    }

    method AskStat(fd: int) returns (a: Stat)
      modifies this
      ensures log == old(log) + [Fstat(fd)] && a == oracle.stat(|old(log)|)
    {
      a := oracle.stat(|log|);
      log := log + [Fstat(fd)];
    }

    method AskLock(fd: int) returns (a: Answer)
      modifies this
      ensures log == old(log) + [Lock(fd)] && a == oracle.lock(|old(log)|)
    {
      a := oracle.lock(|log|);
      log := log + [Lock(fd)];
    }

    method AskTransfer(fd: int, write: bool, offset: nat, size: nat) returns (a: TransferAnswer)
      modifies this
      ensures log == old(log) + [Transfer(fd, write, offset, size)] && a == oracle.transfer(|old(log)|)
    {
      a := oracle.transfer(|log|);
      log := log + [Transfer(fd, write, offset, size)];
    }

    method AskSync(fd: int) returns (a: Answer)
      modifies this
      ensures log == old(log) + [Sync(fd)] && a == oracle.finish(|old(log)|)
    {
      a := oracle.finish(|log|);
      log := log + [Sync(fd)];
    }

    method AskClose(fd: int) returns (a: Answer)
      modifies this
      ensures log == old(log) + [Close(fd)] && a == oracle.finish(|old(log)|)
    {
      a := oracle.finish(|log|);
      log := log + [Close(fd)];
    }
  }

  // ------------------------------------------------------------ One session, as a value

  datatype SessionState = Session(expected: nat, identity: nat, fd: int, active: bool, sticky: bool, last: nat)

  /** A session, its owner's last error and the host's log. */
  datatype View = View(session: SessionState, last: nat, log: seq<Call>)

  datatype IoStatus = IoOk | IoRetry | IoError

  datatype Status = OK | Invalid | AlreadyOpen | NotOpen | OpenFailed | LockFailed | NotRegular
    | SizeMismatch | OffsetUnsupported | NoMemory | IO

  function Synthesized(e: nat): nat { if e != 0 then e else EIO }

  /** An error latches; the first one is the one reported. */
  function Remember(v: View, e: nat): View {
    var first := if v.session.last == 0 then Synthesized(e) else v.session.last;
    View(v.session.(sticky := true, last := first), first, v.log)
  }

  function Logged(v: View, c: Call): View { v.(log := v.log + [c]) }

  /** The file is still the one that was opened. */
  predicate Matches(s: SessionState, a: Stat) {
    a == Stat(true, s.expected, Known(s.identity, true))
  }

  /** The error a metadata answer stands for. */
  function Fault(a: Stat): nat {
    match a
    case StatFailed(e) => e
    case Stat(_, _, _) => EIO
  }

  /** As `Fault`, for an answer that a session compares with its own file. */
  function Mismatch(s: SessionState, a: Stat): nat {
    if a.Stat? && a.regular && a.size == s.expected && a.capture.Unknown? then a.capture.errno else Fault(a)
  }

  function Revalidated(o: Oracle, v: View): (IoStatus, View) {
    if !v.session.active || v.session.fd < 0 then (IoError, v)
    else
      var a, u := o.stat(|v.log|), Logged(v, Fstat(v.session.fd));
      if Matches(v.session, a) then (IoOk, u)
      else if a == StatFailed(EINTR) then (IoRetry, u)
      else (IoError, Remember(u, Mismatch(v.session, a)))
  }

  predicate Accepts(s: SessionState, offset: nat, size: nat) {
    size <= MAX_BYTES && offset + size <= s.expected && offset <= MAX_OFFSET
  }

  /** A read or write request: status, bytes moved, and the state after it. */
  function Transferred(o: Oracle, v: View, write: bool, offset: nat, size: nat, buffer: bool): (IoStatus, nat, View) {
    if !v.session.active || v.session.fd < 0 || !Accepts(v.session, offset, size) then (IoError, 0, v)
    else if size == 0 then (if v.session.sticky then IoError else IoOk, 0, v)
    else if !buffer || v.session.sticky then (IoError, 0, v)
    else
      var (r, u) := Revalidated(o, v);
      if r != IoOk then (r, 0, u)
      else
        var w := Logged(u, Transfer(v.session.fd, write, offset, size));
        match o.transfer(|u.log|)
        case NotMoved(e) => if e == EINTR then (IoRetry, 0, w) else (IoError, 0, Remember(w, e))
        case Bytes(n) => if n == 0 then (IoError, 0, Remember(w, EIO)) else (IoOk, if n < size then n else size, w)
  }

  function FlushedOnce(o: Oracle, v: View): (IoStatus, View) {
    if !v.session.active || v.session.fd < 0 || v.session.sticky then (IoError, v)
    else
      var (r, u) := Revalidated(o, v);
      if r != IoOk then (r, u)
      else
        var w := Logged(u, Sync(v.session.fd));
        match o.finish(|u.log|)
        case Done => (IoOk, w)
        case Failed(e) => if e == EINTR then (IoRetry, w) else (IoError, Remember(w, e))
  }

  /** Flushing until something other than a retry comes back. */
  function Flushed(o: Oracle, v: View, tries: nat): (IoStatus, View)
    decreases tries
  {
    if tries == 0 then (IoRetry, v)
    else
      var (r, u) := FlushedOnce(o, v);
      if r == IoRetry then Flushed(o, u, tries - 1) else (r, u)
  }

  function Settled(o: Oracle, v: View, tries: nat): (IoStatus, View)
    decreases tries
  {
    if tries == 0 then (IoRetry, v)
    else
      var (r, u) := Revalidated(o, v);
      if r == IoRetry then Settled(o, u, tries - 1) else (r, u)
  }

  /** Syncing until something other than an interruption comes back. */
  function Synced(o: Oracle, v: View, tries: nat): (Answer, View)
    decreases tries
  {
    if tries == 0 then (Failed(EINTR), v)
    else
      var u := Logged(v, Sync(v.session.fd));
      var a := o.finish(|v.log|);
      if a == Failed(EINTR) then Synced(o, u, tries - 1) else (a, u)
  }

  function Noted(v: View, a: Answer): View {
    if a.Failed? then Remember(v, a.errno) else v
  }

  /** Validation, then sync, then close, each remembered if it fails. */
  function Closing(o: Oracle, v: View): View {
    var (r, u) := Settled(o, v, LIMIT);
    var checked := if r == IoRetry then Remember(u, EINTR) else u;
    var (a, x) := Synced(o, checked, LIMIT);
    var synced := Noted(x, a);
    Noted(Logged(synced, Close(v.session.fd)), o.finish(|synced.log|))
  }

  /** The session after its end; its first error, if any, is what the owner reports. */
  function Ended(v: View): View {
    View(v.session.(fd := -1, active := false), if v.session.sticky then v.session.last else 0, v.log)
  }

  // ------------------------------------------------------------ The adapter, as a value

  datatype World = World(current: Option<SessionState>, retired: seq<SessionState>, last: nat, log: seq<Call>)

  function On(w: World): View
    requires w.current.Some?
  {
    View(w.current.value, w.last, w.log)
  }

  function Put(w: World, v: View): World { World(Some(v.session), w.retired, v.last, v.log) }

  /** Asking for metadata until something other than an interruption comes back. */
  function Looked(o: Oracle, fd: int, log: seq<Call>, tries: nat): (Stat, seq<Call>)
    decreases tries
  {
    if tries == 0 then (StatFailed(EINTR), log)
    else if o.stat(|log|) == StatFailed(EINTR) then Looked(o, fd, log + [Fstat(fd)], tries - 1)
    else (o.stat(|log|), log + [Fstat(fd)])
  }

  datatype Refusal = Refusal(status: Status, last: nat)

  /** Why a file is refused before it is locked. */
  function Unsuited(a: Stat): Option<Refusal> {
    match a
    case StatFailed(e) => Some(Refusal(IO, Synthesized(e)))
    case Stat(regular, _, c) =>
      if !regular then Some(Refusal(NotRegular, 0))
      else if c.Unknown? then Some(Refusal(IO, Synthesized(c.errno)))
      else if !c.linked then Some(Refusal(IO, EIO))
      else None
  }

  /** Why a locked file is refused, given the file it was before. */
  function Unfit(a: Stat, before: nat, expected: nat): Option<Refusal> {
    match a
    case StatFailed(e) => Some(Refusal(IO, Synthesized(e)))
    case Stat(regular, size, c) =>
      if !regular then Some(Refusal(NotRegular, 0))
      else if size < 0 || size > MAX_OFFSET then Some(Refusal(OffsetUnsupported, EOVERFLOW))
      else if size != expected then Some(Refusal(SizeMismatch, 0))
      else if c.Unknown? then Some(Refusal(IO, Synthesized(c.errno)))
      else if !c.linked || c.identity != before then Some(Refusal(IO, EIO))
      else None
  }

  /** Examining and locking a descriptor that the host opened: refusal, or the identity of the file. */
  datatype Examined = Examined(refusal: Option<Refusal>, identity: nat, log: seq<Call>)

  function Examine(o: Oracle, fd: int, expected: nat, memory: bool, log: seq<Call>): Examined {
    var (a, l) := Looked(o, fd, log, LIMIT);
    var early := Unsuited(a);
    if early.Some? then Examined(early, 0, l)
    else if o.lock(|l|).Failed? then Examined(Some(Refusal(LockFailed, Synthesized(o.lock(|l|).errno))), 0, l + [Lock(fd)])
    else
      var (b, m) := Looked(o, fd, l + [Lock(fd)], LIMIT);
      var late := Unfit(b, a.capture.identity, expected);
      if late.Some? then Examined(late, 0, m)
      else if !memory then Examined(Some(Refusal(NoMemory, ENOMEM)), 0, m)
      else Examined(None, a.capture.identity, m)
  }

  function Opening(o: Oracle, w: World, path: bool, expected: nat, memory: bool): (Status, World) {
    if !path then (Invalid, w)
    else if w.current.Some? then (AlreadyOpen, w)
    else if expected > MAX_OFFSET then (OffsetUnsupported, w.(last := EOVERFLOW))
    else
      match o.open(|w.log|)
      case NotOpened(e) => (OpenFailed, w.(last := Synthesized(e), log := w.log + [Open]))
      case Opened(fd) =>
        var x := Examine(o, fd, expected, memory, w.log + [Open]);
        match x.refusal
        case Some(why) => (why.status, w.(last := why.last, log := x.log + [Close(fd)]))
        case None => (OK, World(Some(Session(expected, x.identity, fd, true, false, 0)), w.retired, 0, x.log))
  }

  function Flushing(o: Oracle, w: World): (Status, World) {
    if w.current.None? || !w.current.value.active then (NotOpen, w)
    else
      var (r, v) := Flushed(o, On(w), LIMIT);
      match r
      case IoOk => (OK, Put(w, v).(last := 0))
      case IoError => (IO, Put(w, v).(last := Synthesized(v.last)))
      case IoRetry => (IO, Put(w, v).(last := EINTR))
  }

  function Retiring(o: Oracle, w: World): (Status, World) {
    if w.current.None? || !w.current.value.active || w.current.value.fd < 0 then (NotOpen, w)
    else
      var v := Ended(Closing(o, On(w)));
      (if v.session.sticky then IO else OK, World(None, [v.session] + w.retired, v.last, v.log))
  }

  // ------------------------------------------------------------ The objects

  class Session {
    const owner: Adapter
    const expected: nat
    const identity: nat
    var fd: int
    var last: nat
    var active: bool
    var sticky: bool

    function State(): SessionState
      reads this
    {
      SessionState.Session(expected, identity, fd, active, sticky, last)
    }

    function Seen(): View
      reads this, owner, owner.host
    {
      View(State(), owner.last, owner.host.log)
    }

    constructor (owner: Adapter, descriptor: int, expected: nat, identity: nat)
      ensures this.owner == owner && State() == SessionState.Session(expected, identity, descriptor, true, false, 0)
    {
      this.owner, this.expected, this.identity := owner, expected, identity;
      fd, last, active, sticky := descriptor, 0, true, false;
    }

    method RememberError(e: nat)
      modifies `sticky, `last, owner`last
      ensures Seen() == Remember(old(Seen()), e)
    {
      sticky := true;
      if last == 0 {
        last := Synthesized(e);
      }
      owner.last := last;
    }

    method Revalidate() returns (r: IoStatus)
      modifies `sticky, `last, owner`last, owner.host
      ensures (r, Seen()) == Revalidated(owner.host.oracle, old(Seen()))
    {
      if !active || fd < 0 {
        return IoError;
      }
      var a := owner.host.AskStat(fd);
      if a.StatFailed? {
        if a.errno == EINTR {
          return IoRetry;
        }
        RememberError(a.errno);
        return IoError;
      }
      if !a.regular || a.size < 0 || a.size != expected {
        RememberError(EIO);
        return IoError;
      }
      if a.capture.Unknown? {
        RememberError(a.capture.errno);
        return IoError;
      }
      if !a.capture.linked || a.capture.identity != identity {
        RememberError(EIO);
        return IoError;
      }
      return IoOk;
    }

    predicate RequestValid(offset: nat, size: nat)
      reads this
    {
      if size > MAX_BYTES then false
      else if offset > expected || size > expected - offset then false
      else offset <= MAX_OFFSET
    }

    method ReadOrWrite(write: bool, offset: nat, size: nat, buffer: bool) returns (r: IoStatus, actual: nat)
      modifies `sticky, `last, owner`last, owner.host
      ensures (r, actual, Seen()) == Transferred(owner.host.oracle, old(Seen()), write, offset, size, buffer)
    {
      actual := 0;
      if !active || fd < 0 || !RequestValid(offset, size) {
        return IoError, actual;
      }
      if size == 0 {
        return if sticky then IoError else IoOk, actual;
      }
      if !buffer {
        return IoError, actual;
      }
      if sticky {
        return IoError, actual;
      }
      var validation := Revalidate();
      if validation != IoOk {
        return validation, actual;
      }
      var moved := owner.host.AskTransfer(fd, write, offset, size);
      if moved.Bytes? {
        if moved.count > 0 {
          actual := if moved.count < size then moved.count else size;
          return IoOk, actual;
        }
        RememberError(EIO);
        return IoError, actual;
      }
      if moved.errno == EINTR {
        return IoRetry, actual;
      }
      RememberError(moved.errno);
      return IoError, actual;
    }

    method FlushCallback() returns (r: IoStatus)
      modifies `sticky, `last, owner`last, owner.host
      ensures (r, Seen()) == FlushedOnce(owner.host.oracle, old(Seen()))
    {
      if !active || fd < 0 || sticky {
        return IoError;
      }
      var validation := Revalidate();
      if validation != IoOk {
        return validation;
      }
      var a := owner.host.AskSync(fd);
      if a.Done? {
        return IoOk;
      }
      if a.errno == EINTR {
        return IoRetry;
      }
      RememberError(a.errno);
      return IoError;
    }
  }

  function States(sessions: seq<Session>): seq<SessionState>
    reads sessions
  {
    if sessions == [] then [] else [sessions[0].State()] + States(sessions[1..])
  }

  class Adapter {
    const host: Host
    var current: Session?
    var retired: seq<Session>
    var last: nat

    ghost predicate Valid()
      reads this, current
    {
      current != null ==>
        && current.owner == this && current !in retired
        && current.active && current.fd >= 0 && (current.sticky <==> current.last != 0)
    }

    function State(): World
      reads this, current, retired, host
    {
      World(if current == null then None else Some(current.State()), States(retired), last, host.log)
    }

    constructor (host: Host)
      ensures Valid() && this.host == host && State() == World(None, [], 0, host.log)
    {
      this.host := host;
      current, retired, last := null, [], 0;
    }

    method LookBounded(fd: int) returns (a: Stat)
      modifies host
      ensures (a, host.log) == Looked(host.oracle, fd, old(host.log), LIMIT)
    {
      var tries: nat := 0;
      while true
        invariant tries < LIMIT
        invariant Looked(host.oracle, fd, old(host.log), LIMIT) == Looked(host.oracle, fd, host.log, LIMIT - tries)
        decreases LIMIT - tries
      {
        a := host.AskStat(fd);
        if a.Stat? {
          return a;
        }
        tries := tries + 1;
        if a.errno != EINTR || tries >= LIMIT {
          return a;
        }
      }
    }

    method ExamineDescriptor(fd: int, size: nat, memory: bool) returns (refusal: Option<Refusal>, identity: nat)
      modifies host
      ensures Examined(refusal, identity, host.log) == Examine(host.oracle, fd, size, memory, old(host.log))
      ensures refusal.Some? ==> refusal.value.status != OK
    {
      var a := LookBounded(fd);
      if a.StatFailed? {
        return Some(Refusal(IO, Synthesized(a.errno))), 0;
      }
      if !a.regular {
        return Some(Refusal(NotRegular, 0)), 0;
      }
      if a.capture.Unknown? {
        return Some(Refusal(IO, Synthesized(a.capture.errno))), 0;
      }
      if !a.capture.linked {
        return Some(Refusal(IO, EIO)), 0;
      }
      var locked := host.AskLock(fd);
      if locked.Failed? {
        return Some(Refusal(LockFailed, Synthesized(locked.errno))), 0;
      }
      var b := LookBounded(fd);
      if b.StatFailed? {
        return Some(Refusal(IO, Synthesized(b.errno))), 0;
      }
      if !b.regular {
        return Some(Refusal(NotRegular, 0)), 0;
      }
      if b.size < 0 || b.size > MAX_OFFSET {
        return Some(Refusal(OffsetUnsupported, EOVERFLOW)), 0;
      }
      if b.size != size {
        return Some(Refusal(SizeMismatch, 0)), 0;
      }
      if b.capture.Unknown? {
        return Some(Refusal(IO, Synthesized(b.capture.errno))), 0;
      }
      if !b.capture.linked || a.capture.identity != b.capture.identity {
        return Some(Refusal(IO, EIO)), 0;
      }
      if !memory {
        return Some(Refusal(NoMemory, ENOMEM)), 0;
      }
      return None, b.capture.identity;
    }

    method OpenFile(path: bool, size: nat, memory: bool) returns (status: Status)
      requires Valid()
      modifies this, host
      ensures Valid() && (status, State()) == Opening(host.oracle, old(State()), path, size, memory)
      ensures retired == old(retired)
      ensures if status == OK then old(current) == null && current != null && fresh(current) else current == old(current)
    {
      hide Examine;
      if !path {
        return Invalid;
      }
      if current != null {
        return AlreadyOpen;
      }
      last := 0;
      if size > MAX_OFFSET {
        last := EOVERFLOW;
        return OffsetUnsupported;
      }
      var answer := host.AskOpen();
      if answer.NotOpened? {
        last := Synthesized(answer.errno);
        return OpenFailed;
      }
      var refusal, identity := ExamineDescriptor(answer.fd, size, memory);
      if refusal.Some? {
        var ignored := host.AskClose(answer.fd);
        last := refusal.value.last;
        return refusal.value.status;
      }
      current := new Session(this, answer.fd, size, identity);
      return OK;
    }

    method FlushCurrent() returns (r: IoStatus)
      requires Valid() && current != null
      modifies `last, host, current`sticky, current`last
      ensures (r, current.Seen()) == Flushed(host.oracle, old(current.Seen()), LIMIT)
    {
      var tries: nat := 0;
      r := IoRetry;
      while tries < LIMIT
        invariant tries <= LIMIT
        invariant r == IoRetry
        invariant Flushed(host.oracle, old(current.Seen()), LIMIT) == Flushed(host.oracle, current.Seen(), LIMIT - tries)
      {
        r := current.FlushCallback();
        if r != IoRetry {
          return r;
        }
        tries := tries + 1;
      }
    }

    method Flush() returns (status: Status)
      requires Valid()
      modifies `last, host, current
      ensures (status, State()) == Flushing(host.oracle, old(State()))
    {
      if current == null || !current.active {
        return NotOpen;
      }
      ghost var rest := States(retired);
      var r := FlushCurrent();
      if r == IoOk {
        last := 0;
        return OK;
      }
      if r == IoError {
        if last == 0 {
          last := EIO;
        }
        return IO;
      }
      last := EINTR;
      return IO;
    }

    method SettleCurrent() returns (r: IoStatus)
      requires Valid() && current != null
      modifies `last, host, current`sticky, current`last
      ensures (r, current.Seen()) == Settled(host.oracle, old(current.Seen()), LIMIT)
      ensures Valid() && (r == IoError ==> current.sticky) && (r != IoError ==> current.sticky == old(current.sticky))
      ensures old(current.last) != 0 || r != IoError ==> current.last == old(current.last)
    {
      var tries: nat := 0;
      r := IoRetry;
      while tries < LIMIT
        invariant tries <= LIMIT && r == IoRetry && Valid()
        invariant current.sticky == old(current.sticky) && current.last == old(current.last)
        invariant Settled(host.oracle, old(current.Seen()), LIMIT) == Settled(host.oracle, current.Seen(), LIMIT - tries)
      {
        r := current.Revalidate();
        if r != IoRetry {
          return r;
        }
        tries := tries + 1;
      }
    }

    method SyncCurrent() returns (a: Answer)
      requires Valid() && current != null
      modifies host
      ensures (a, current.Seen()) == Synced(host.oracle, old(current.Seen()), LIMIT)
    {
      var tries: nat := 0;
      a := Failed(EINTR);
      while tries < LIMIT
        invariant tries <= LIMIT
        invariant a == Failed(EINTR)
        invariant Synced(host.oracle, old(current.Seen()), LIMIT) == Synced(host.oracle, current.Seen(), LIMIT - tries)
      {
        a := host.AskSync(current.fd);
        if a.Done? || a.errno != EINTR {
          return a;
        }
        tries := tries + 1;
      }
    }

    /** Validates, syncs and closes; says whether anything failed and what failed first. */
    method WindDown() returns (failed: bool, saved: nat)
      requires Valid() && current != null
      modifies `last, host, current`sticky, current`last
      ensures current.Seen() == Closing(host.oracle, old(current.Seen()))
      ensures failed == current.sticky && saved == current.last && (failed <==> saved != 0)
    {
      failed, saved := current.sticky, current.last;
      var validation := SettleCurrent();
      if validation == IoRetry {
        current.RememberError(EINTR);
        validation := IoError;
      }
      if validation != IoOk {
        failed := true;
        if saved == 0 {
          saved := current.last;
        }
      }
      var synced := SyncCurrent();
      if synced.Failed? {
        failed := true;
        current.RememberError(synced.errno);
        if saved == 0 {
          saved := Synthesized(synced.errno);
        }
      }
      var closed := host.AskClose(current.fd);
      if closed.Failed? {
        failed := true;
        current.RememberError(closed.errno);
        if saved == 0 {
          saved := Synthesized(closed.errno);
        }
      }
    }

    method CloseFile() returns (status: Status)
      requires Valid()
      modifies this, host, current
      ensures Valid() && (status, State()) == Retiring(host.oracle, old(State()))
      ensures current == null
      ensures retired == if old(current) == null then old(retired) else [old(current)] + old(retired)
    {
      hide Closing;
      var session := current;
      if session == null || !session.active || session.fd < 0 {
        return NotOpen;
      }
      var failed, saved := WindDown();
      session.fd := -1;
      session.active := false;
      session.sticky := failed;
      current := null;
      retired := [session] + retired;
      last := if failed then Synthesized(saved) else 0;
      return if failed then IO else OK;
    }
  }

  // ------------------------------------------------------------ Runs

  /** Which descriptor a caller still holds: that of the open session, or of one closed earlier (newest first). */
  datatype Holder = Current | Retired(index: nat)

  datatype Op =
    | OpOpen(path: bool, expected: nat, memory: bool)
    | OpTransfer(holder: Holder, write: bool, offset: nat, size: nat, buffer: bool)
    | OpFlushCallback(holder: Holder)
    | OpFlush
    | OpClose

  datatype Result = Ended(status: Status) | Moved(io: IoStatus, count: nat)

  /** The session a descriptor stands for. */
  function Holds(w: World, h: Holder): Option<SessionState> {
    match h
    case Current => w.current
    case Retired(i) => if i < |w.retired| then Some(w.retired[i]) else None
  }

  function Store(w: World, h: Holder, v: View): World
    requires Holds(w, h).Some?
  {
    match h
    case Current => Put(w, v)
    case Retired(i) => World(w.current, w.retired[i := v.session], v.last, v.log)
  }

  /** One operation; a descriptor that was never given out can do nothing. */
  function Step(o: Oracle, w: World, op: Op): (Result, World) {
    match op
    case OpOpen(path, expected, memory) => var (s, x) := Opening(o, w, path, expected, memory); (Result.Ended(s), x)
    case OpFlush => var (s, x) := Flushing(o, w); (Result.Ended(s), x)
    case OpClose => var (s, x) := Retiring(o, w); (Result.Ended(s), x)
    case OpTransfer(h, write, offset, size, buffer) =>
      (match Holds(w, h)
       case None => (Moved(IoError, 0), w)
       case Some(s) =>
         var (r, n, v) := Transferred(o, View(s, w.last, w.log), write, offset, size, buffer);
         (Moved(r, n), Store(w, h, v)))
    case OpFlushCallback(h) =>
      match Holds(w, h)
      case None => (Moved(IoError, 0), w)
      case Some(s) =>
        var (r, v) := FlushedOnce(o, View(s, w.last, w.log));
        (Moved(r, 0), Store(w, h, v))
  }

  function Run(o: Oracle, w: World, ops: seq<Op>): World
    decreases |ops|
  {
    if ops == [] then w else Run(o, Step(o, w, ops[0]).1, ops[1..])
  }

  const START: World := World(None, [], 0, [])

  // ------------------------------------------------------------ What a log must look like

  /** The descriptor a program holds after some calls. */
  datatype Hold = Free | Holding(fd: int) | Broken

  function After(o: Oracle, h: Hold, c: Call, k: nat): Hold {
    if h == Broken then Broken
    else
      match c
      case Open => if h != Free then Broken else (match o.open(k) case Opened(fd) => Holding(fd) case NotOpened(_) => Free)
      case Close(fd) => if h == Holding(fd) then Free else Broken
      case Fstat(fd) => if h == Holding(fd) then h else Broken
      case Lock(fd) => if h == Holding(fd) then h else Broken
      case Transfer(fd, _, _, _) => if h == Holding(fd) then h else Broken
      case Sync(fd) => if h == Holding(fd) then h else Broken
  }

  /** Broken by a second open, a second close, or any use of a descriptor that is not open. */
  function Held(o: Oracle, log: seq<Call>): Hold {
    if log == [] then Free else After(o, Held(o, log[..|log| - 1]), log[|log| - 1], |log| - 1)
  }

  /** Call `j` locked the descriptor, call `m` found the file of this size and identity, and it has been open since. */
  ghost predicate Admits(o: Oracle, log: seq<Call>, j: nat, m: nat, s: SessionState) {
    && j < m < |log| && log[j] == Lock(s.fd) && o.lock(j) == Done
    && log[m] == Fstat(s.fd) && Matches(s, o.stat(m))
    && forall i :: j < i < |log| ==> !log[i].Open? && !log[i].Close?
  }

  ghost predicate Admitted(o: Oracle, log: seq<Call>, s: SessionState) {
    exists j: nat, m: nat :: Admits(o, log, j, m, s)
  }

  /** The call before found the file's size and identity unchanged since it was locked; the transfer stays inside. */
  ghost predicate Guarded(o: Oracle, log: seq<Call>) {
    forall k :: 0 <= k < |log| && log[k].Transfer? ==> GuardedAt(o, log, k)
  }

  ghost predicate GuardedAt(o: Oracle, log: seq<Call>, k: nat)
    requires k < |log| && log[k].Transfer?
  {
    && k > 0 && log[k - 1] == Fstat(log[k].fd)
    && 0 < log[k].size <= MAX_BYTES
    && exists s: SessionState :: s.fd == log[k].fd && GuardedBy(o, log, k, s)
  }

  ghost predicate GuardedBy(o: Oracle, log: seq<Call>, k: nat, s: SessionState)
    requires 0 < k < |log| && log[k].Transfer?
  {
    Matches(s, o.stat(k - 1)) && log[k].offset + log[k].size <= s.expected && Admitted(o, log[..k], s)
  }

  // ------------------------------------------------------------ Invariant of an open session

  ghost predicate Live(o: Oracle, v: View) {
    && v.session.active && v.session.fd >= 0
    && (v.session.sticky <==> v.session.last != 0) && (v.session.sticky ==> v.last != 0)
    && Held(o, v.log) == Holding(v.session.fd)
    && Guarded(o, v.log) && Admitted(o, v.log, v.session)
  }

  /** A later state of the same session: nothing unlatched, nothing unlogged. */
  ghost predicate Follows(v: View, u: View, calls: nat) {
    && u.session.(sticky := v.session.sticky, last := v.session.last) == v.session
    && (v.session.sticky ==> u.session == v.session)
    && v.log <= u.log && |u.log| <= |v.log| + calls
  }

  lemma HeldLogged(o: Oracle, log: seq<Call>, c: Call)
    ensures Held(o, log + [c]) == After(o, Held(o, log), c, |log|)
  {
    assert (log + [c])[..|log|] == log;
  }

  lemma GuardedLogged(o: Oracle, log: seq<Call>, c: Call)
    requires Guarded(o, log)
    requires c.Transfer? ==> GuardedAt(o, log + [c], |log|)
    ensures Guarded(o, log + [c])
  {
    var l := log + [c];
    forall k | 0 <= k < |l| && l[k].Transfer?
      ensures GuardedAt(o, l, k)
    {
      if k < |log| {
        assert GuardedAt(o, log, k);
        assert l[..k] == log[..k];
        var s: SessionState :| s.fd == log[k].fd && GuardedBy(o, log, k, s);
        assert GuardedBy(o, l, k, s);
      }
    }
  }

  lemma AdmittedLogged(o: Oracle, log: seq<Call>, c: Call, s: SessionState)
    requires Admitted(o, log, s) && !c.Open? && !c.Close?
    ensures Admitted(o, log + [c], s)
  {
    var j: nat, m: nat :| Admits(o, log, j, m, s);
    assert Admits(o, log + [c], j, m, s);
  }

  /** Any use but a transfer keeps an open session live. */
  lemma UseKeepsLive(o: Oracle, v: View, c: Call)
    requires Live(o, v) && (c == Fstat(v.session.fd) || c == Sync(v.session.fd))
    ensures Live(o, Logged(v, c)) && Follows(v, Logged(v, c), 1)
  {
    hide Held, Guarded, Admitted;
    HeldLogged(o, v.log, c);
    GuardedLogged(o, v.log, c);
    AdmittedLogged(o, v.log, c, v.session);
  }

  lemma RememberKeepsLive(o: Oracle, v: View, e: nat)
    requires Live(o, v)
    ensures Live(o, Remember(v, e)) && Remember(v, e).session.sticky && Remember(v, e).last == Remember(v, e).session.last
    ensures Follows(v, Remember(v, e), 0)
  {
    hide Held, Guarded;
    var j: nat, m: nat :| Admits(o, v.log, j, m, v.session);
    assert Admits(o, v.log, j, m, Remember(v, e).session);
  }

  lemma FollowsTwice(v: View, u: View, w: View, a: nat, b: nat)
    requires Follows(v, u, a) && Follows(u, w, b)
    ensures Follows(v, w, a + b)
  {
  }

  /** Validation succeeds exactly when the call just made found the file unchanged. */
  lemma RevalidatedKeeps(o: Oracle, v: View)
    requires Live(o, v)
    ensures var (r, u) := Revalidated(o, v);
            && Live(o, u) && Follows(v, u, 1)
            && u.log == v.log + [Fstat(v.session.fd)] && (r == IoOk <==> Matches(v.session, o.stat(|v.log|)))
            && (r != IoError ==> u.session == v.session && u.last == v.last) && (r == IoError ==> u.session.sticky)
  {
    hide Live, Follows, Remember;
    LiveIs(o, v);
    var u := Logged(v, Fstat(v.session.fd));
    UseKeepsLive(o, v, Fstat(v.session.fd));
    var e := Mismatch(v.session, o.stat(|v.log|));
    RememberKeepsLive(o, u, e);
    RememberLog(u, e);
    FollowsTwice(v, u, Remember(u, e), 1, 0);
  }

  lemma LiveIs(o: Oracle, v: View)
    requires Live(o, v)
    ensures v.session.active && v.session.fd >= 0
  {
    hide Held, Guarded, Admitted;
  }

  lemma RememberLog(v: View, e: nat)
    ensures Remember(v, e).log == v.log
  {
  }

  /** A validated transfer inside the file keeps the log guarded. */
  lemma TransferKeepsLive(o: Oracle, v: View, c: Call)
    requires Live(o, v) && c.Transfer? && c.fd == v.session.fd && 0 < c.size <= MAX_BYTES && c.offset + c.size <= v.session.expected
    requires v.log != [] && v.log[|v.log| - 1] == Fstat(c.fd) && Matches(v.session, o.stat(|v.log| - 1))
    ensures Live(o, Logged(v, c)) && Follows(v, Logged(v, c), 1)
  {
    hide Held, Admits;
    HeldLogged(o, v.log, c);
    AdmittedLogged(o, v.log, c, v.session);
    assert (v.log + [c])[..|v.log|] == v.log;
    assert GuardedBy(o, v.log + [c], |v.log|, v.session);
    GuardedLogged(o, v.log, c);
  }

  /** A read or write by the open session. */
  lemma TransferredKeeps(o: Oracle, v: View, write: bool, offset: nat, size: nat, buffer: bool)
    requires Live(o, v)
    ensures var (r, n, u) := Transferred(o, v, write, offset, size, buffer);
            && Live(o, u) && Follows(v, u, 2)
            && (v.session.sticky ==> r == IoError && u == v)
            && (r == IoOk && size > 0 ==> 0 < n <= size && u.log == v.log + [Fstat(v.session.fd), Transfer(v.session.fd, write, offset, size)])
            && (r != IoOk ==> n == 0)
            && (!Accepts(v.session, offset, size) ==> r == IoError && u == v)
  {
    hide Live, Follows, Remember, Revalidated, Matches;
    LiveIs(o, v);
    RevalidatedKeeps(o, v);
    FollowsItself(v, 2);
    var (r, u) := Revalidated(o, v);
    if Accepts(v.session, offset, size) && size > 0 && buffer && !v.session.sticky {
      FollowsItself(u, 1);
      FollowsTwice(v, u, u, 1, 1);
      if r == IoOk {
        var c := Transfer(v.session.fd, write, offset, size);
        TransferKeepsLive(o, u, c);
        var w := Logged(u, c);
        FollowsTwice(v, u, w, 1, 1);
        var e := if o.transfer(|u.log|).NotMoved? then o.transfer(|u.log|).errno else EIO;
        RememberKeepsLive(o, w, e);
        FollowsTwice(v, w, Remember(w, e), 2, 0);
      }
    }
  }

  lemma FollowsItself(v: View, calls: nat)
    ensures Follows(v, v, calls)
  {
  }

  lemma FlushedOnceKeeps(o: Oracle, v: View)
    requires Live(o, v)
    ensures var (r, u) := FlushedOnce(o, v);
            && Live(o, u) && Follows(v, u, 2) && (v.session.sticky ==> r == IoError && u == v)
            && (r == IoOk ==> Durable(o, u) && !u.session.sticky) && (r == IoError ==> u.session.sticky)
  {
    hide Live, Follows, Remember, Revalidated, Matches;
    LiveIs(o, v);
    FollowsItself(v, 2);
    if !v.session.sticky {
      RevalidatedKeeps(o, v);
      var (r, u) := Revalidated(o, v);
      FollowsItself(u, 1);
      FollowsTwice(v, u, u, 1, 1);
      if r == IoOk {
        UseKeepsLive(o, u, Sync(v.session.fd));
        var w := Logged(u, Sync(v.session.fd));
        FollowsTwice(v, u, w, 1, 1);
        var a := o.finish(|u.log|);
        if a.Failed? {
          RememberKeepsLive(o, w, a.errno);
          FollowsTwice(v, w, Remember(w, a.errno), 2, 0);
        }
      }
    }
  }

  /** The last two calls validated the open file and synced it. */
  ghost predicate Durable(o: Oracle, v: View) {
    && |v.log| >= 2
    && v.log[|v.log| - 2] == Fstat(v.session.fd) && Matches(v.session, o.stat(|v.log| - 2))
    && v.log[|v.log| - 1] == Sync(v.session.fd) && o.finish(|v.log| - 1) == Done
  }

  lemma {:induction false} FlushedKeeps(o: Oracle, v: View, tries: nat)
    requires Live(o, v)
    ensures var (r, u) := Flushed(o, v, tries);
            && Live(o, u) && Follows(v, u, 2 * tries) && (v.session.sticky && tries > 0 ==> r == IoError && u == v)
            && (r == IoOk ==> Durable(o, u) && !u.session.sticky) && (r == IoError ==> u.session.sticky)
    decreases tries
  {
    hide Live, Follows, FlushedOnce, Durable;
    FollowsItself(v, 2 * tries);
    if tries > 0 {
      FlushedOnceKeeps(o, v);
      var (r, u) := FlushedOnce(o, v);
      FollowsItself(u, 2 * (tries - 1));
      FollowsTwice(v, u, u, 2, 2 * (tries - 1));
      if r == IoRetry {
        FlushedKeeps(o, u, tries - 1);
        FollowsTwice(v, u, Flushed(o, u, tries - 1).1, 2, 2 * (tries - 1));
      }
    }
  }

  lemma {:induction false} SettledKeeps(o: Oracle, v: View, tries: nat)
    requires Live(o, v)
    ensures var (r, u) := Settled(o, v, tries);
            && Live(o, u) && Follows(v, u, tries) && (r == IoError ==> u.session.sticky)
            && (r != IoError ==> u.session == v.session && u.last == v.last)
    decreases tries
  {
    hide Live, Follows, Revalidated, Matches;
    FollowsItself(v, tries);
    if tries > 0 {
      RevalidatedKeeps(o, v);
      var (r, u) := Revalidated(o, v);
      FollowsItself(u, tries - 1);
      FollowsTwice(v, u, u, 1, tries - 1);
      if r == IoRetry {
        SettledKeeps(o, u, tries - 1);
        FollowsTwice(v, u, Settled(o, u, tries - 1).1, 1, tries - 1);
      }
    }
  }

  lemma {:induction false} SyncedKeeps(o: Oracle, v: View, tries: nat)
    requires Live(o, v)
    ensures var (a, u) := Synced(o, v, tries);
            && Live(o, u) && Follows(v, u, tries) && u.session == v.session && u.last == v.last
            && (a == Done ==> |u.log| > |v.log| && u.log[|u.log| - 1] == Sync(v.session.fd) && o.finish(|u.log| - 1) == Done)
    decreases tries
  {
    hide Live, Follows;
    FollowsItself(v, tries);
    if tries > 0 {
      UseKeepsLive(o, v, Sync(v.session.fd));
      var u := Logged(v, Sync(v.session.fd));
      FollowsItself(u, tries - 1);
      FollowsTwice(v, u, u, 1, tries - 1);
      SyncedKeeps(o, u, tries - 1);
      FollowsTwice(v, u, Synced(o, u, tries - 1).1, 1, tries - 1);
    }
  }

  // ------------------------------------------------------------ Invariant of every run

  ghost predicate Dead(s: SessionState) {
    !s.active && s.fd == -1 && (s.sticky <==> s.last != 0)
  }

  /** At most one session is active, it holds the only open descriptor, and every call so far was in order. */
  ghost predicate Good(o: Oracle, w: World) {
    && (if w.current.Some? then Live(o, On(w)) else Held(o, w.log) == Free && Guarded(o, w.log))
    && forall i :: 0 <= i < |w.retired| ==> Dead(w.retired[i])
  }

  lemma CloseKeepsOrder(o: Oracle, log: seq<Call>, fd: int)
    requires Held(o, log) == Holding(fd) && Guarded(o, log)
    ensures Held(o, log + [Close(fd)]) == Free && Guarded(o, log + [Close(fd)])
  {
    hide Held, Guarded;
    HeldLogged(o, log, Close(fd));
    GuardedLogged(o, log, Close(fd));
  }

  lemma {:induction false} LookedKeeps(o: Oracle, fd: int, log: seq<Call>, tries: nat)
    requires Held(o, log) == Holding(fd) && Guarded(o, log)
    ensures var (a, l) := Looked(o, fd, log, tries);
            && Held(o, l) == Holding(fd) && Guarded(o, l) && log <= l && |l| <= |log| + tries
            && (tries > 0 ==> |l| > |log| && l[|l| - 1] == Fstat(fd) && a == o.stat(|l| - 1))
            && forall i :: |log| <= i < |l| ==> l[i] == Fstat(fd)
    decreases tries
  {
    hide Held, Guarded;
    if tries > 0 {
      HeldLogged(o, log, Fstat(fd));
      GuardedLogged(o, log, Fstat(fd));
      LookedKeeps(o, fd, log + [Fstat(fd)], tries - 1);
    }
  }

  /** A descriptor that passes was locked, and then found with the size asked for and the identity it had before. */
  lemma ExamineKeeps(o: Oracle, fd: int, expected: nat, memory: bool, log: seq<Call>)
    requires Held(o, log) == Holding(fd) && Guarded(o, log)
    ensures var x := Examine(o, fd, expected, memory, log);
            && Held(o, x.log) == Holding(fd) && Guarded(o, x.log) && log <= x.log && |x.log| <= |log| + 2 * LIMIT + 1
            && (x.refusal.Some? ==> x.refusal.value.status != OK && x.refusal.value.status != AlreadyOpen)
            && (x.refusal.None? ==> Admitted(o, x.log, SessionState.Session(expected, x.identity, fd, true, false, 0)))
  {
    hide Held, Guarded, Looked;
    LookedKeeps(o, fd, log, LIMIT);
    var (a, l) := Looked(o, fd, log, LIMIT);
    HeldLogged(o, l, Lock(fd));
    GuardedLogged(o, l, Lock(fd));
    LookedKeeps(o, fd, l + [Lock(fd)], LIMIT);
    var x := Examine(o, fd, expected, memory, log);
    if x.refusal.None? {
      assert Admits(o, x.log, |l|, |x.log| - 1, SessionState.Session(expected, x.identity, fd, true, false, 0));
    }
  }

  /** Opening gives a live session or leaves no descriptor open, and never disturbs a session that is open. */
  lemma OpeningKeepsGood(o: Oracle, w: World, path: bool, expected: nat, memory: bool)
    requires Good(o, w)
    ensures var (s, x) := Opening(o, w, path, expected, memory);
            && Good(o, x) && x.retired == w.retired && w.log <= x.log && |x.log| <= |w.log| + 2 * LIMIT + 3
            && (s == OK <==> w.current.None? && x.current.Some?) && (s != OK ==> x.current == w.current)
            && (w.current.Some? ==> x == w)
  {
    hide Held, Guarded, Admitted, Examine;
    if path && w.current.None? && expected <= MAX_OFFSET {
      HeldLogged(o, w.log, Open);
      GuardedLogged(o, w.log, Open);
      var a := o.open(|w.log|);
      if a.Opened? {
        ExamineKeeps(o, a.fd, expected, memory, w.log + [Open]);
        CloseKeepsOrder(o, Examine(o, a.fd, expected, memory, w.log + [Open]).log, a.fd);
      }
    }
  }

  /** A flush that succeeds ended with a validation of the open file and a sync that the host confirmed. */
  lemma FlushingKeepsGood(o: Oracle, w: World)
    requires Good(o, w)
    ensures var (s, x) := Flushing(o, w);
            && Good(o, x) && x.retired == w.retired && w.log <= x.log && |x.log| <= |w.log| + 2 * LIMIT
            && (w.current.None? <==> s == NotOpen) && (s == NotOpen ==> x == w)
            && (s == OK ==> Durable(o, On(x)) && !x.current.value.sticky && x.last == 0)
            && (s == IO ==> x.last != 0)
            && (w.current.Some? && w.current.value.sticky ==> s == IO && x == w)
  {
    hide Live, Flushed, Follows;
    if w.current.Some? {
      LiveIs(o, On(w));
      FlushedKeeps(o, On(w), LIMIT);
      var (r, v) := Flushed(o, On(w), LIMIT);
      FollowsIs(On(w), v, 2 * LIMIT);
      LiveSticky(o, v);
      if r != IoError {
        LiveAnyLast(o, v, if r == IoOk then 0 else EINTR);
      }
    }
  }

  lemma FollowsIs(v: View, u: View, calls: nat)
    requires Follows(v, u, calls)
    ensures v.log <= u.log && |u.log| <= |v.log| + calls && (v.session.sticky ==> u.session == v.session)
    ensures u.session.fd == v.session.fd && u.session.active == v.session.active && u.session.expected == v.session.expected
  {
  }

  lemma LiveSticky(o: Oracle, v: View)
    requires Live(o, v)
    ensures v.session.sticky ==> v.last != 0
    ensures v.session.sticky <==> v.session.last != 0
    ensures Held(o, v.log) == Holding(v.session.fd) && Guarded(o, v.log)
  {
    hide Held, Guarded, Admitted;
  }

  lemma LiveAnyLast(o: Oracle, v: View, last: nat)
    requires Live(o, v) && (last != 0 || !v.session.sticky)
    ensures Live(o, v.(last := last))
  {
    hide Held, Guarded, Admitted;
  }

  /** Some call behind the first `from` found the file as it was opened. */
  ghost predicate FoundUnchanged(o: Oracle, s: SessionState, log: seq<Call>, from: nat) {
    exists k :: from <= k < |log| && log[k] == Fstat(s.fd) && Matches(s, o.stat(k))
  }

  /** What a settled validation says: its last call found the file unchanged. */
  lemma {:induction false} SettledSaw(o: Oracle, v: View, tries: nat)
    requires Live(o, v) && Settled(o, v, tries).0 == IoOk
    ensures var u := Settled(o, v, tries).1;
            |u.log| > |v.log| && u.log[|u.log| - 1] == Fstat(v.session.fd) && Matches(v.session, o.stat(|u.log| - 1))
    decreases tries
  {
    hide Live, Matches, Revalidated;
    RevalidatedKeeps(o, v);
    var (r, u) := Revalidated(o, v);
    if r == IoRetry {
      SettledSaw(o, u, tries - 1);
    }
  }

  lemma StillFound(o: Oracle, v: View, u: View, log: seq<Call>)
    requires |u.log| > |v.log| && u.log[|u.log| - 1] == Fstat(v.session.fd) && Matches(v.session, o.stat(|u.log| - 1)) && u.log <= log
    ensures FoundUnchanged(o, v.session, log, |v.log|)
  {
    hide Matches;
    assert log[|u.log| - 1] == u.log[|u.log| - 1];
  }

  /** Closing from validation to the host's close. */
  lemma ClosingKeeps(o: Oracle, v: View)
    requires Live(o, v)
    ensures var u := Closing(o, v);
            && Held(o, u.log) == Free && Guarded(o, u.log) && Follows(v, u, 2 * LIMIT + 1)
            && (u.session.sticky <==> u.session.last != 0)
            && (!u.session.sticky ==> FoundUnchanged(o, v.session, u.log, |v.log|) && FinishedWell(o, u.log, v.session.fd))
  {
    hide Live, Follows, Held, Guarded, Settled, Synced, Remember, FoundUnchanged, Matches;
    SettledKeeps(o, v, LIMIT);
    var (r, u) := Settled(o, v, LIMIT);
    RememberKeepsLive(o, u, EINTR);
    FollowsTwice(v, u, Remember(u, EINTR), LIMIT, 0);
    var checked := if r == IoRetry then Remember(u, EINTR) else u;
    SyncedKeeps(o, checked, LIMIT);
    var (a, x) := Synced(o, checked, LIMIT);
    FollowsTwice(v, checked, x, LIMIT, LIMIT);
    var synced := Noted(x, a);
    if a.Failed? {
      RememberKeepsLive(o, x, a.errno);
      RememberLog(x, a.errno);
      FollowsTwice(v, x, synced, 2 * LIMIT, 0);
    }
    FollowsIs(v, synced, 2 * LIMIT);
    LiveSticky(o, synced);
    CloseKeepsOrder(o, synced.log, v.session.fd);
    EndsWith(o, v, synced, o.finish(|synced.log|));
    StickyIfRemembered(o, u, x, a, r);
    if r == IoOk {
      SettledSaw(o, v, LIMIT);
      FollowsIs(checked, x, LIMIT);
      if a == Done {
        StillFound(o, v, u, synced.log + [Close(v.session.fd)]);
      }
    }
  }

  lemma StickyIfRemembered(o: Oracle, u: View, x: View, a: Answer, r: IoStatus)
    requires x.session == (if r == IoRetry then Remember(u, EINTR) else u).session
    requires r == IoError ==> u.session.sticky
    ensures !Noted(x, a).session.sticky ==> r == IoOk && a == Done
  {
  }

  ghost predicate FinishedWell(o: Oracle, log: seq<Call>, fd: int) {
    && |log| >= 2 && log[|log| - 2] == Sync(fd) && o.finish(|log| - 2) == Done
    && log[|log| - 1] == Close(fd) && o.finish(|log| - 1) == Done
  }

  lemma EndsWith(o: Oracle, v: View, synced: View, a: Answer)
    requires Follows(v, synced, 2 * LIMIT) && (synced.session.sticky <==> synced.session.last != 0)
    ensures var u := Noted(Logged(synced, Close(v.session.fd)), a);
            && Follows(v, u, 2 * LIMIT + 1) && u.log == synced.log + [Close(v.session.fd)]
            && (u.session.sticky <==> u.session.last != 0) && (u.session.sticky <==> synced.session.sticky || a.Failed?)
  {
  }

  /** The session that ends keeps its first error for ever; it ends clean only if validation, sync and close all succeeded. */
  lemma RetiringKeepsGood(o: Oracle, w: World)
    requires Good(o, w)
    ensures var (s, x) := Retiring(o, w);
            && Good(o, x) && x.current == None && w.log <= x.log && |x.log| <= |w.log| + 2 * LIMIT + 1
            && (w.current.None? <==> s == NotOpen) && (s == NotOpen ==> x == w)
            && (s != NotOpen ==> |x.retired| == |w.retired| + 1 && x.retired[1..] == w.retired
                                 && x.last == x.retired[0].last && (s == OK <==> x.last == 0)
                                 && (w.current.value.sticky ==> s == IO && x.retired[0] == w.current.value.(fd := -1, active := false)))
            && (s == OK ==> !w.current.value.sticky && FoundUnchanged(o, w.current.value, x.log, |w.log|)
                            && FinishedWell(o, x.log, w.current.value.fd))
  {
    hide Live, Closing, Held, Guarded, Settled, FinishedWell, FoundUnchanged;
    if w.current.Some? {
      LiveIs(o, On(w));
      ClosingKeeps(o, On(w));
    }
  }

  // ------------------------------------------------------------ Main results

  /** The descriptor of a session closed earlier fails every callback, with no host call and no change at all. */
  lemma RetiredFails(o: Oracle, w: World, op: Op)
    requires Good(o, w)
    requires (op.OpTransfer? || op.OpFlushCallback?) && op.holder.Retired?
    ensures Step(o, w, op) == (Moved(IoError, 0), w)
  {
    hide Live, Held, Guarded;
    var i := op.holder.index;
    if i < |w.retired| {
      assert Dead(w.retired[i]);
      assert w.retired[i := w.retired[i]] == w.retired;
    }
  }

  /** The number of host calls of an operation. */
  function Bound(op: Op): nat {
    match op
    case OpOpen(_, _, _) => 2 * LIMIT + 3
    case OpTransfer(_, _, _, _, _) => 2
    case OpFlushCallback(_) => 2
    case OpFlush => 2 * LIMIT
    case OpClose => 2 * LIMIT + 1
  }

  lemma CurrentKeepsGood(o: Oracle, w: World, op: Op)
    requires Good(o, w) && w.current.Some?
    requires (op.OpTransfer? || op.OpFlushCallback?) && op.holder == Current
    ensures var x := Step(o, w, op).1;
            Good(o, x) && x.retired == w.retired && x.current.Some? && w.log <= x.log && |x.log| <= |w.log| + 2
  {
    hide Live, Transferred, FlushedOnce, Follows;
    if op.OpTransfer? {
      TransferredKeeps(o, On(w), op.write, op.offset, op.size, op.buffer);
      FollowsIs(On(w), Transferred(o, On(w), op.write, op.offset, op.size, op.buffer).2, 2);
    } else {
      FlushedOnceKeeps(o, On(w));
      FollowsIs(On(w), FlushedOnce(o, On(w)).1, 2);
    }
  }

  /** One operation keeps the invariant, finishes within its bound, and leaves every retired session as it was. */
  lemma StepKeepsGood(o: Oracle, w: World, op: Op)
    requires Good(o, w)
    ensures var x := Step(o, w, op).1;
            && Good(o, x) && w.log <= x.log && |x.log| <= |w.log| + Bound(op)
            && |x.retired| >= |w.retired| && x.retired[|x.retired| - |w.retired|..] == w.retired
  {
    hide Good, Opening, Flushing, Retiring, Transferred, FlushedOnce, Settled;
    match op {
      case OpOpen(path, expected, memory) => OpeningKeepsGood(o, w, path, expected, memory);
      case OpFlush => FlushingKeepsGood(o, w);
      case OpClose => RetiringKeepsGood(o, w);
      case _ =>
        if op.holder.Retired? {
          RetiredFails(o, w, op);
        } else if w.current.Some? {
          CurrentKeepsGood(o, w, op);
        }
    }
  }

  /** Whatever the host answers and whatever the caller does: at most one session is active, its descriptor is the only one
      open, none is leaked, used after its close or closed twice, and every transfer follows a validation of the locked file
      and stays inside it. Sessions once retired stay as they are. */
  lemma {:induction false} RunKeepsGood(o: Oracle, w: World, ops: seq<Op>)
    requires Good(o, w)
    ensures var x := Run(o, w, ops);
            Good(o, x) && w.log <= x.log && |x.retired| >= |w.retired| && x.retired[|x.retired| - |w.retired|..] == w.retired
    decreases |ops|
  {
    hide Good, Step;
    if ops != [] {
      StepKeepsGood(o, w, ops[0]);
      var y := Step(o, w, ops[0]).1;
      RunKeepsGood(o, y, ops[1..]);
      var x := Run(o, y, ops[1..]);
      assert x.retired[|x.retired| - |w.retired|..] == x.retired[|x.retired| - |y.retired|..][|y.retired| - |w.retired|..];
    }
  }

  lemma StartIsGood(o: Oracle)
    ensures Good(o, START)
  {
  }

  /** Every run from the start. */
  lemma RunsAreSafe(o: Oracle, ops: seq<Op>)
    ensures Good(o, Run(o, START, ops))
  {
    hide Good, Run;
    StartIsGood(o);
    RunKeepsGood(o, START, ops);
  }

  /** A session that failed. */
  ghost predicate Latched(s: SessionState, w: World, retired: nat) {
    || w.current == Some(s)
    || (|w.retired| > retired && w.retired[|w.retired| - retired - 1] == s.(fd := -1, active := false))
  }

  /** One operation on a failed session: an error without any host call, until its close, which reports failure. */
  lemma FailedSessionFails(o: Oracle, w: World, op: Op)
    requires Good(o, w) && w.current.Some? && w.current.value.sticky
    ensures var (r, x) := Step(o, w, op);
            && (op.OpTransfer? || op.OpFlushCallback? ==> r == Moved(IoError, 0) && x == w)
            && (op.OpFlush? || op.OpClose? ==> r == Result.Ended(IO))
            && (op.OpOpen? ==> r != Result.Ended(OK))
            && (if op.OpClose? then |x.retired| == |w.retired| + 1 && x.retired[0] == w.current.value.(fd := -1, active := false)
                else x == w)
  {
    hide Live, Held, Guarded, Opening, Flushing, Retiring, Transferred, FlushedOnce, Settled;
    match op {
      case OpOpen(path, expected, memory) => OpeningKeepsGood(o, w, path, expected, memory);
      case OpFlush => FlushingKeepsGood(o, w);
      case OpClose => RetiringKeepsGood(o, w);
      case OpTransfer(h, write, offset, size, buffer) =>
        RetiredOrCurrent(o, w, op, h);
        TransferredKeeps(o, On(w), write, offset, size, buffer);
      case OpFlushCallback(h) =>
        RetiredOrCurrent(o, w, op, h);
        FlushedOnceKeeps(o, On(w));
    }
  }

  lemma RetiredOrCurrent(o: Oracle, w: World, op: Op, h: Holder)
    requires Good(o, w) && (op.OpTransfer? || op.OpFlushCallback?) && op.holder == h
    ensures h.Retired? ==> Step(o, w, op) == (Moved(IoError, 0), w)
  {
    hide Good, Step;
    if h.Retired? {
      RetiredFails(o, w, op);
    }
  }

  /** A failure is never cleared: after any run the session is still open and failed with the same first error, or retired so. */
  lemma {:induction false} FailureSticks(o: Oracle, w: World, ops: seq<Op>)
    requires Good(o, w) && w.current.Some? && w.current.value.sticky
    ensures Latched(w.current.value, Run(o, w, ops), |w.retired|)
    decreases |ops|
  {
    hide Good, Step;
    if ops != [] {
      FailedSessionFails(o, w, ops[0]);
      StepKeepsGood(o, w, ops[0]);
      var y := Step(o, w, ops[0]).1;
      if ops[0].OpClose? {
        RunKeepsGood(o, y, ops[1..]);
        var x := Run(o, y, ops[1..]);
        assert x.retired[|x.retired| - |y.retired|..][0] == y.retired[0];
      } else {
        FailureSticks(o, y, ops[1..]);
      }
    }
  }
}
