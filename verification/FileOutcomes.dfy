/** What each callback of a file-backed device reports, said by the host's answers at their places in its log. */
module FileOutcomes {
  import opened Words
  import opened FileBlock

  /** An open session that has not failed. */
  predicate Clean(v: View) { v.session.active && v.session.fd >= 0 && !v.session.sticky && v.session.last == 0 }

  /** A nonempty request inside the file and the callback limit. */
  predicate Inside(s: SessionState, offset: nat, size: nat) {
    0 < size <= 0x10_0000 && offset + size <= s.expected && offset <= 0x7fff_ffff_ffff_ffff
  }

  /** The metadata answer that finds the file as it was opened: a regular file of that size and identity, still linked. */
  predicate Found(s: SessionState, a: Stat) {
    a.Stat? && a.regular && a.size == s.expected && a.capture.Known? && a.capture.identity == s.identity && a.capture.linked
  }

  /** The session failed with an error, which latches; an errno of zero counts as an input/output error. */
  predicate Latched(before: SessionState, after: SessionState, e: nat) {
    after == before.(sticky := true, last := if e == 0 then 5 else e)
  }

  /** The errno a refused validation leaves. */
  function Reason(s: SessionState, a: Stat): nat {
    match a
    case StatFailed(e) => e
    case Stat(regular, size, capture) => if regular && size == s.expected && capture.Unknown? then capture.errno else 5
  }

  /** A nonempty transfer on a clean session: the host is asked for metadata, and only if the file is found for the transfer; what
      is reported is the host's own count, never more than was asked for. */
  lemma TransferOutcome(o: Oracle, v: View, write: bool, offset: nat, size: nat)
    requires Clean(v) && Inside(v.session, offset, size)
    ensures var (r, n, u) := Transferred(o, v, write, offset, size, true);
            var s, k := v.session, |v.log|;
            && (r == IoOk <==> Found(s, o.stat(k)) && o.transfer(k + 1).Bytes? && o.transfer(k + 1).count > 0)
            && (r == IoOk ==> u.session == s && n == if o.transfer(k + 1).count < size then o.transfer(k + 1).count else size)
            && (r != IoOk ==> n == 0)
            && (r == IoRetry ==> u.session == s)
            && (r == IoError ==> u.last == u.session.last)
            && (r != IoError ==> u.last == v.last)
            && if Found(s, o.stat(k)) then
                 && u.log == v.log + [Fstat(s.fd), Transfer(s.fd, write, offset, size)]
                 && match o.transfer(k + 1)
                    case Bytes(count) => count == 0 ==> r == IoError && Latched(s, u.session, 5)
                    case NotMoved(e) => if e == 4 then r == IoRetry else r == IoError && Latched(s, u.session, e)
               else
                 && u.log == v.log + [Fstat(s.fd)]
                 && if o.stat(k) == StatFailed(4) then r == IoRetry else r == IoError && Latched(s, u.session, Reason(s, o.stat(k)))
  {
    assert v.log + [Fstat(v.session.fd)] + [Transfer(v.session.fd, write, offset, size)]
        == v.log + [Fstat(v.session.fd), Transfer(v.session.fd, write, offset, size)];
  }

  /** Every other request is answered without the host, and an empty one inside the file succeeds on a clean session. */
  lemma OtherRequests(o: Oracle, v: View, write: bool, offset: nat, size: nat, buffer: bool)
    requires !(Clean(v) && Inside(v.session, offset, size) && buffer) && (v.session.sticky <==> v.session.last != 0)
    ensures var (r, n, u) := Transferred(o, v, write, offset, size, buffer);
            && n == 0 && u == v && r != IoRetry
            && (r == IoOk <==> Clean(v) && size == 0 && offset <= v.session.expected && offset <= 0x7fff_ffff_ffff_ffff)
  {
  }

  /** A flush of a clean session: metadata, and only if the file is found a sync, whose answer decides. */
  lemma FlushOutcome(o: Oracle, v: View)
    requires Clean(v)
    ensures var (r, u) := FlushedOnce(o, v);
            var s, k := v.session, |v.log|;
            && (r == IoOk <==> Found(s, o.stat(k)) && o.finish(k + 1) == Done)
            && (r != IoError ==> u.session == s)
            && if Found(s, o.stat(k)) then
                 && u.log == v.log + [Fstat(s.fd), Sync(s.fd)]
                 && match o.finish(k + 1)
                    case Done => r == IoOk
                    case Failed(e) => if e == 4 then r == IoRetry else r == IoError && Latched(s, u.session, e)
               else
                 && u.log == v.log + [Fstat(s.fd)]
                 && if o.stat(k) == StatFailed(4) then r == IoRetry else r == IoError && Latched(s, u.session, Reason(s, o.stat(k)))
  {
    assert v.log + [Fstat(v.session.fd)] + [Sync(v.session.fd)] == v.log + [Fstat(v.session.fd), Sync(v.session.fd)];
  }

  // ------------------------------------------------------------ Bounded retries

  function Repeated(c: FileBlock.Call, n: nat): (l: seq<FileBlock.Call>)
    ensures |l| == n && forall i :: 0 <= i < n ==> l[i] == c
  {
    seq(n, i => c)
  }

  /** `n` asks of at most `tries`, all but the last interrupted, and the last too only if there is no try left. */
  ghost predicate FirstAnswer(stop: nat -> bool, k: nat, n: nat, tries: nat) {
    && 0 < n <= tries
    && (forall i :: k <= i < k + n - 1 ==> !stop(i))
    && (n < tries ==> stop(k + n - 1))
  }

  /** Metadata is asked for until an answer is no interruption, at most as often as allowed, and the last answer is the one used. */
  lemma {:induction false} LookedFirst(o: Oracle, fd: int, log: seq<FileBlock.Call>, tries: nat) returns (n: nat)
    requires tries > 0
    ensures 0 < n
    ensures FirstAnswer((i: nat) => o.stat(i) != StatFailed(4), |log|, n, tries)
    ensures Looked(o, fd, log, tries) == (o.stat(|log| + n - 1), log + Repeated(Fstat(fd), n))
    decreases tries
  {
    var here := log + [Fstat(fd)];
    if o.stat(|log|) == StatFailed(4) && tries > 1 {
      var m := LookedFirst(o, fd, here, tries - 1);
      n := m + 1;
      assert [Fstat(fd)] + Repeated(Fstat(fd), m) == Repeated(Fstat(fd), n);
      assert here + Repeated(Fstat(fd), m) == log + Repeated(Fstat(fd), n);
    } else {
      n := 1;
      assert Repeated(Fstat(fd), 1) == [Fstat(fd)];
    }
  }

  /** So is a sync. */
  lemma {:induction false} SyncedFirst(o: Oracle, v: View, tries: nat) returns (n: nat)
    requires tries > 0
    ensures 0 < n
    ensures FirstAnswer((i: nat) => o.finish(i) != Failed(4), |v.log|, n, tries)
    ensures Synced(o, v, tries) == (o.finish(|v.log| + n - 1), v.(log := v.log + Repeated(Sync(v.session.fd), n)))
    decreases tries
  {
    var c := Sync(v.session.fd);
    if o.finish(|v.log|) == Failed(4) && tries > 1 {
      var m := SyncedFirst(o, Logged(v, c), tries - 1);
      n := m + 1;
      assert v.log + [c] + Repeated(c, m) == v.log + Repeated(c, n);
    } else {
      n := 1;
      assert Repeated(c, 1) == [c];
    }
  }

  // ------------------------------------------------------------ The adapter's operations

  /** A descriptor that cannot be used: closed again, nothing left open, and the error kept for the caller. */
  predicate Declined(w: World, status: Status, x: World, why: Status, fd: nat, e: nat) {
    status == why && x.current.None? && x.retired == w.retired && x.last == e && x.log != [] && x.log[|x.log| - 1] == Close(fd)
  }

  /** An errno as it is kept: zero counts as an input/output error. */
  function Code(e: nat): nat { if e == 0 then 5 else e }

  /** What an opened descriptor is refused for, in order, with the errno kept; none if it can be used. */
  function Objection(o: Oracle, k: nat, n: nat, m: nat, expected: nat, memory: bool): Option<Refusal>
    requires n > 0
  {
    var a, b := o.stat(k + n - 1), o.stat(k + n + m);
    if a.StatFailed? then Some(Refusal(IO, Code(a.errno)))
    else if !a.regular then Some(Refusal(NotRegular, 0))
    else if a.capture.Unknown? then Some(Refusal(IO, Code(a.capture.errno)))
    else if !a.capture.linked then Some(Refusal(IO, 5))
    else if o.lock(k + n).Failed? then Some(Refusal(LockFailed, Code(o.lock(k + n).errno)))
    else if b.StatFailed? then Some(Refusal(IO, Code(b.errno)))
    else if !b.regular then Some(Refusal(NotRegular, 0))
    else if !(0 <= b.size <= 0x7fff_ffff_ffff_ffff) then Some(Refusal(OffsetUnsupported, 75))
    else if b.size != expected then Some(Refusal(SizeMismatch, 0))
    else if b.capture.Unknown? then Some(Refusal(IO, Code(b.capture.errno)))
    else if !b.capture.linked || b.capture.identity != a.capture.identity then Some(Refusal(IO, 5))
    else if !memory then Some(Refusal(NoMemory, 12))
    else None
  }

  lemma ExamineOutcome(o: Oracle, fd: int, expected: nat, memory: bool, log: seq<FileBlock.Call>) returns (n: nat, m: nat)
    ensures 0 < n && FirstAnswer((i: nat) => o.stat(i) != StatFailed(4), |log|, n, 64)
    ensures 0 < m && FirstAnswer((i: nat) => o.stat(i) != StatFailed(4), |log| + n + 1, m, 64)
    ensures var x := Examine(o, fd, expected, memory, log);
            && x.refusal == Objection(o, |log|, n, m, expected, memory)
            && (x.refusal.None? ==> x.identity == o.stat(|log| + n - 1).capture.identity)
  {
    hide Looked, FirstAnswer;
    n := LookedFirst(o, fd, log, LIMIT);
    m := LookedFirst(o, fd, log + Repeated(Fstat(fd), n) + [Lock(fd)], LIMIT);
  }

  /** Opening a file: it succeeds exactly if the host opens it, the first metadata answer that is no interruption finds a linked
      regular file, the lock is granted, the next such answer finds the same file with the size asked for, and memory is there.
      A refusal is for the first of these that fails, keeps its errno, and closes the descriptor. */
  lemma OpenOutcome(o: Oracle, w: World, expected: nat, memory: bool) returns (n: nat, m: nat)
    requires w.current.None? && expected <= 0x7fff_ffff_ffff_ffff
    ensures 0 < n && FirstAnswer((i: nat) => o.stat(i) != StatFailed(4), |w.log| + 1, n, 64)
    ensures 0 < m && FirstAnswer((i: nat) => o.stat(i) != StatFailed(4), |w.log| + n + 2, m, 64)
    ensures var (status, x) := Opening(o, w, true, expected, memory);
            match o.open(|w.log|)
            case NotOpened(e) => status == OpenFailed && x == World(None, w.retired, Code(e), w.log + [Open])
            case Opened(fd) =>
              match Objection(o, |w.log| + 1, n, m, expected, memory)
              case Some(why) => Declined(w, status, x, why.status, fd, why.last)
              case None => status == OK && x.retired == w.retired && x.last == 0
                           && x.current == Some(SessionState.Session(expected, o.stat(|w.log| + n).capture.identity, fd, true, false, 0))
  {
    hide Examine, FirstAnswer, Objection;
    var fd := if o.open(|w.log|).Opened? then o.open(|w.log|).fd else 0;
    n, m := ExamineOutcome(o, fd, expected, memory, w.log + [Open]);
  }

  /** One flush after another on the same session, each but the last asking for a retry. */
  ghost predicate Retried(o: Oracle, v: View, seen: seq<View>, r: IoStatus) {
    && |seen| > 1 && seen[0] == v
    && (forall i :: 0 <= i < |seen| - 2 ==> FlushedOnce(o, seen[i]) == (IoRetry, seen[i + 1]))
    && FlushedOnce(o, seen[|seen| - 2]) == (r, seen[|seen| - 1])
  }

  lemma {:induction false} FlushedFirst(o: Oracle, v: View, tries: nat) returns (seen: seq<View>)
    requires tries > 0
    ensures 1 < |seen| <= tries + 1 && Flushed(o, v, tries).1 == seen[|seen| - 1]
    ensures Retried(o, v, seen, Flushed(o, v, tries).0)
    ensures |seen| <= tries ==> Flushed(o, v, tries).0 != IoRetry
    decreases tries
  {
    hide FlushedOnce;
    var (r, u) := FlushedOnce(o, v);
    if r == IoRetry && tries > 1 {
      var rest := FlushedFirst(o, u, tries - 1);
      seen := [v] + rest;
      assert seen[|seen| - 1] == rest[|rest| - 1] && seen[|seen| - 2] == rest[|rest| - 2];
      forall i | 0 <= i < |seen| - 2
        ensures FlushedOnce(o, seen[i]) == (IoRetry, seen[i + 1])
      {
        if i > 0 {
          assert seen[i] == rest[i - 1] && seen[i + 1] == rest[i];
        }
      }
    } else {
      seen := [v, u];
    }
  }

  /** A flush of the adapter: callbacks until one does not ask for a retry, at most 64, and the last one's answer is the report. */
  lemma FlushReport(o: Oracle, w: World) returns (seen: seq<View>, r: IoStatus)
    requires w.current.Some? && w.current.value.active
    ensures Retried(o, On(w), seen, r) && |seen| <= 65 && (|seen| <= 64 ==> r != IoRetry)
    ensures var (status, x) := Flushing(o, w);
            var v := seen[|seen| - 1];
            && status == (if r == IoOk then OK else IO)
            && x == World(Some(v.session), w.retired, if r == IoOk then 0 else if r == IoRetry then 4 else Code(v.last), v.log)
  {
    hide FlushedOnce;
    seen := FlushedFirst(o, On(w), LIMIT);
    r := Flushed(o, On(w), LIMIT).0;
  }

  /** Metadata asked for while closing, up to the first answer that is no interruption. */
  lemma {:induction false} SettledFirst(o: Oracle, v: View, tries: nat) returns (n: nat)
    requires tries > 0 && v.session.active && v.session.fd >= 0
    ensures 0 < n
    ensures FirstAnswer((i: nat) => o.stat(i) != StatFailed(4), |v.log|, n, tries)
    ensures var a, u := o.stat(|v.log| + n - 1), v.(log := v.log + Repeated(Fstat(v.session.fd), n));
            Settled(o, v, tries) == if Found(v.session, a) then (IoOk, u)
                                    else if a == StatFailed(4) then (IoRetry, u)
                                    else (IoError, Remember(u, Reason(v.session, a)))
    decreases tries
  {
    hide Remember;
    var c := Fstat(v.session.fd);
    var u := Logged(v, c);
    if o.stat(|v.log|) == StatFailed(4) && tries > 1 {
      var k := SettledFirst(o, u, tries - 1);
      n := k + 1;
      assert v.log + [c] + Repeated(c, k) == v.log + Repeated(c, n);
    } else {
      n := 1;
      assert Repeated(c, 1) == [c];
      assert Settled(o, u, tries - 1) == (IoRetry, u) || tries > 1;
    }
  }

  /** The session after the metadata part of a close. */
  lemma Checked(o: Oracle, v: View, n: nat) returns (u: View)
    requires 0 < n && v.session.active && v.session.fd >= 0
    requires var a, u := o.stat(|v.log| + n - 1), v.(log := v.log + Repeated(Fstat(v.session.fd), n));
             Settled(o, v, LIMIT) == if Found(v.session, a) then (IoOk, u)
                                     else if a == StatFailed(4) then (IoRetry, u)
                                     else (IoError, Remember(u, Reason(v.session, a)))
    ensures u == if Settled(o, v, LIMIT).0 == IoRetry then Remember(Settled(o, v, LIMIT).1, EINTR) else Settled(o, v, LIMIT).1
    ensures var a, w := o.stat(|v.log| + n - 1), v.(log := v.log + Repeated(Fstat(v.session.fd), n));
            u == if Found(v.session, a) then w else Remember(w, Reason(v.session, a))
  {
    hide Settled, Remember, Repeated;
    var (r, w) := Settled(o, v, LIMIT);
    u := if r == IoRetry then Remember(w, EINTR) else w;
  }

  /** The first error of a close: the session's own, else metadata that does not find the file, else the sync's, else the close's. */
  function FirstError(s: SessionState, a: Stat, b: Answer, c: Answer): nat {
    if s.last != 0 then s.last
    else if !Found(s, a) then Code(Reason(s, a))
    else if b.Failed? then Code(b.errno)
    else if c.Failed? then Code(c.errno)
    else 0
  }

  /** Closing: metadata and then a sync are asked for until an answer is no interruption, the descriptor is closed once whatever
      they say, and the session retires with the first error there was; success is reported exactly if there was none. */
  lemma CloseOutcome(o: Oracle, w: World) returns (n: nat, m: nat)
    requires w.current.Some? && w.current.value.active && w.current.value.fd >= 0
    requires w.current.value.sticky <==> w.current.value.last != 0
    ensures var (status, x) := Retiring(o, w);
            var s, k := w.current.value, |w.log|;
            && 0 < n && FirstAnswer((i: nat) => o.stat(i) != StatFailed(4), k, n, 64)
            && 0 < m && FirstAnswer((i: nat) => o.finish(i) != Failed(4), k + n, m, 64)
            && var e := FirstError(s, o.stat(k + n - 1), o.finish(k + n + m - 1), o.finish(k + n + m));
               && status == (if e == 0 then OK else IO)
               && x == World(None, [s.(fd := -1, active := false, sticky := e != 0, last := e)] + w.retired, e,
                             w.log + Repeated(Fstat(s.fd), n) + Repeated(Sync(s.fd), m) + [Close(s.fd)])
  {
    hide Settled, Synced, FirstAnswer, Found, Reason, Repeated;
    var v := On(w);
    n := SettledFirst(o, v, LIMIT);
    var checked := Checked(o, v, n);
    m := SyncedFirst(o, checked, LIMIT);
  }
}
