/** Reading a payload archive into a provisioning plan. */
module PayloadTar {
  import opened Text
  import opened Words

  const BLOCK: nat := 512
  const MAX_ENTRIES: nat := 1024
  const MAX_ENTRY_BYTES: nat := 0x100_0000
  const SPACE: Byte := 0x20
  const DOT: Byte := 0x2e
  const BACKSLASH: Byte := 0x5c
  const ZERO: Byte := 0x30

  // ------------------------------------------------------------ Octal fields

  predicate Pad(b: Byte) { b == SPACE || b == 0 }

  /** What is left behind leading padding. */
  function Trimmed(p: seq<Byte>): (r: seq<Byte>)
    ensures |r| <= |p|
  {
    if p != [] && Pad(p[0]) then Trimmed(p[1..]) else p
  }

  /** Bytes up to the first padding byte. */
  function Digits(p: seq<Byte>): (r: seq<Byte>)
    ensures |r| <= |p|
  {
    if p == [] || Pad(p[0]) then [] else [p[0]] + Digits(p[1..])
  }

  predicate IsOctal(d: seq<Byte>) { forall i :: 0 <= i < |d| ==> ZERO <= d[i] <= ZERO + 7 }

  function OctalValue(d: seq<Byte>): (v: nat)
    requires IsOctal(d)
  {
    if d == [] then 0 else 8 * OctalValue(d[..|d| - 1]) + (d[|d| - 1] - ZERO)
  }

  /** The value of an octal field: the digits between padding, none meaning zero. */
  function Octal(p: seq<Byte>): Option<nat> {
    var d := Digits(Trimmed(p));
    if IsOctal(d) then Some(OctalValue(d)) else None
  }

  function Pow8(n: nat): (p: nat)
    ensures p > 0
  {
    if n == 0 then 1 else 8 * Pow8(n - 1)
  }

  lemma {:induction false} OctalBelow(d: seq<Byte>)
    requires IsOctal(d)
    ensures OctalValue(d) < Pow8(|d|)
  {
    if d != [] {
      OctalBelow(d[..|d| - 1]);
    }
  }

  lemma {:induction false} Pow8Grows(a: nat, b: nat)
    requires a <= b
    ensures Pow8(a) <= Pow8(b)
  {
    if a < b {
      Pow8Grows(a, b - 1);
    }
  }

  lemma Pow8Of12()
    ensures Pow8(12) == 0x10_0000_0000
  {
    assert Pow8(4) == 4096;
    assert Pow8(8) == 4096 * Pow8(4);
    assert Pow8(12) == 4096 * Pow8(8);
  }

  /** The accumulator never reaches its overflow refusal: no field is longer than twelve digits. */
  lemma TwelveDigits(d: seq<Byte>)
    requires IsOctal(d) && |d| <= 12
    ensures OctalValue(d) < 0x10_0000_0000
  {
    OctalBelow(d);
    Pow8Grows(|d|, 12);
    Pow8Of12();
  }

  lemma {:induction false} TrimmedFrom(p: seq<Byte>, i: nat)
    requires i <= |p| && forall k :: 0 <= k < i ==> Pad(p[k])
    ensures Trimmed(p) == Trimmed(p[i..])
  {
    if i > 0 {
      TrimmedFrom(p[1..], i - 1);
      assert p[1..][i - 1..] == p[i..];
    } else {
      assert p[0..] == p;
    }
  }

  /** Digits are the stretch that the padding ends. */
  lemma {:induction false} DigitsAre(p: seq<Byte>, n: nat)
    requires n <= |p| && (forall k :: 0 <= k < n ==> !Pad(p[k])) && (n == |p| || Pad(p[n]))
    ensures Digits(p) == p[..n]
  {
    if n > 0 {
      DigitsAre(p[1..], n - 1);
      assert p[..n] == [p[0]] + p[1..][..n - 1];
    }
  }

  lemma {:induction false} NotOctal(p: seq<Byte>, n: nat)
    requires n < |p| && (forall k :: 0 <= k <= n ==> !Pad(p[k])) && !(ZERO <= p[n] <= ZERO + 7)
    ensures !IsOctal(Digits(p))
  {
    if n > 0 {
      NotOctal(p[1..], n - 1);
      var i :| 0 <= i < |Digits(p[1..])| && !(ZERO <= Digits(p[1..])[i] <= ZERO + 7);
      assert Digits(p)[i + 1] == Digits(p[1..])[i];
    } else {
      assert Digits(p)[0] == p[0];
    }
  }

  /** The field reader. */
  method OctalField(p: seq<Byte>) returns (v: Option<nat>)
    requires |p| <= 12
    ensures v == Octal(p)
  {
    var i: nat := 0;
    while i < |p| && Pad(p[i])
      invariant i <= |p| && forall k :: 0 <= k < i ==> Pad(p[k])
    {
      i := i + 1;
    }
    TrimmedFrom(p, i);
    var q := p[i..];
    assert Trimmed(p) == q;
    if i == |p| {
      return Some(0);
    }
    v := OctalDigits(q);
  }

  /** The digits of a field, up to the first padding. */
  method OctalDigits(q: seq<Byte>) returns (v: Option<nat>)
    requires |q| <= 12
    ensures v == if IsOctal(Digits(q)) then Some(OctalValue(Digits(q))) else None
  {
    hide Digits;
    var i: nat, value: nat := 0, 0;
    while i < |q|
      invariant i <= |q| && forall k :: 0 <= k < i ==> !Pad(q[k])
      invariant IsOctal(q[..i]) && value == OctalValue(q[..i])
    {
      if Pad(q[i]) {
        break;
      }
      if q[i] < ZERO || q[i] > ZERO + 7 {
        NotOctal(q, i);
        return None;
      }
      TwelveDigits(q[..i]);
      assert value <= 0x1fff_ffff_ffff_ffff;
      if value > 0x1fff_ffff_ffff_ffff {
        return None;
      }
      assert q[..i + 1][..i] == q[..i];
      value := 8 * value + (q[i] - ZERO) as int;
      i := i + 1;
    }
    DigitsAre(q, i);
    return Some(value);
  }

  // ------------------------------------------------------------ Headers

  predicate IsHeader(h: seq<Byte>) { |h| == BLOCK }

  predicate AllZero(h: seq<Byte>) { forall i :: 0 <= i < |h| ==> h[i] == 0 }

  /** Sum of the first `n` header bytes with the checksum field read as spaces. */
  function HeaderSum(h: seq<Byte>, n: nat): nat
    requires IsHeader(h) && n <= BLOCK
  {
    if n == 0 then 0 else HeaderSum(h, n - 1) + (if 148 <= n - 1 < 156 then SPACE else h[n - 1])
  }

  predicate ChecksumOk(h: seq<Byte>)
    requires IsHeader(h)
  {
    Octal(h[148..156]) == Some(HeaderSum(h, BLOCK))
  }

  method CheckSum(h: seq<Byte>) returns (ok: bool)
    requires IsHeader(h)
    ensures ok <==> ChecksumOk(h)
  {
    var stored := OctalField(h[148..156]);
    if stored.None? {
      return false;
    }
    var sum: nat := 0;
    for i := 0 to BLOCK
      invariant sum == HeaderSum(h, i)
    {
      sum := sum + if 148 <= i < 156 then SPACE else h[i];
    }
    return sum == stored.value;
  }

  /** Prefix field, a slash and the name field, or the name alone. */
  function FullName(h: seq<Byte>): seq<Byte>
    requires IsHeader(h)
  {
    var prefix, name := CString(h[345..500]), CString(h[0..100]);
    if prefix != [] then prefix + [SLASH] + name else name
  }

  /** Without trailing slashes. */
  function Stripped(s: seq<Byte>): seq<Byte> {
    if s != [] && s[|s| - 1] == SLASH then Stripped(s[..|s| - 1]) else s
  }

  /** The name of a member as the plan uses it. */
  function MemberName(h: seq<Byte>): seq<Byte>
    requires IsHeader(h)
  {
    Stripped(FullName(h))
  }

  function LinkName(h: seq<Byte>): seq<Byte>
    requires IsHeader(h)
  {
    CString(h[157..257])
  }

  function Mode(h: seq<Byte>): Option<nat>
    requires IsHeader(h)
  {
    Octal(h[100..108])
  }

  function Size(h: seq<Byte>): Option<nat>
    requires IsHeader(h)
  {
    Octal(h[124..136])
  }

  function Type(h: seq<Byte>): Byte
    requires IsHeader(h)
  {
    h[156]
  }

  // ------------------------------------------------------------ Names

  predicate Printable(s: seq<Byte>) {
    forall i :: 0 <= i < |s| ==> 0x20 <= s[i] <= 0x7e && s[i] != BACKSLASH
  }

  const DOTDOT: seq<Byte> := [DOT, DOT]

  predicate ContainsAt(s: seq<Byte>, i: nat, x: seq<Byte>) { i + |x| <= |s| && s[i..i + |x|] == x }

  /** The reader's own test of a path. */
  predicate Traverses(s: seq<Byte>) {
    || (s != [] && s[0] == SLASH)
    || ContainsAt(s, 0, [DOT, DOT, SLASH]) || s == DOTDOT
    || (exists i: nat :: i < |s| && ContainsAt(s, i, [SLASH, DOT, DOT, SLASH]))
    || (|s| >= 3 && ContainsAt(s, |s| - 3, [SLASH, DOT, DOT]))
  }

  /** All pieces between slashes, empty ones included. */
  function Split(s: seq<Byte>): seq<seq<Byte>>
    decreases |s|
  {
    var k := SlashAt(s);
    if k == |s| then [s] else [s[..k]] + Split(s[k + 1..])
  }

  /** A component ".." stands at `i`. */
  predicate DotDotAt(s: seq<Byte>, i: nat) {
    && i + 2 <= |s| && s[i] == DOT && s[i + 1] == DOT
    && (i == 0 || s[i - 1] == SLASH) && (i + 2 == |s| || s[i + 2] == SLASH)
  }

  predicate HasDotDot(s: seq<Byte>) { exists i: nat :: i < |s| && DotDotAt(s, i) }

  lemma {:induction false} DotDotComponent(s: seq<Byte>)
    ensures DOTDOT in Split(s) <==> HasDotDot(s)
    decreases |s|
  {
    var k := SlashAt(s);
    if k == |s| {
      OnlyComponent(s);
    } else {
      DotDotComponent(s[k + 1..]);
      FirstComponent(s);
    }
  }

  lemma OnlyComponent(s: seq<Byte>)
    requires SlashAt(s) == |s|
    ensures s == DOTDOT <==> HasDotDot(s)
  {
    if s == DOTDOT {
      assert DotDotAt(s, 0);
    }
    if i: nat :| i < |s| && DotDotAt(s, i) {
      assert i == 0;
      assert s == DOTDOT;
    }
  }

  lemma FirstComponent(s: seq<Byte>)
    requires SlashAt(s) < |s|
    ensures var k := SlashAt(s);
            HasDotDot(s) <==> s[..k] == DOTDOT || HasDotDot(s[k + 1..])
  {
    hide HasDotDot;
    var k := SlashAt(s);
    FirstDotDot(s, k);
    RestDotDot(s, k);
    if HasDotDot(s) {
      SomeDotDot(s, k);
    }
  }

  lemma RestDotDot(s: seq<Byte>, k: nat)
    requires k < |s| && s[k] == SLASH
    ensures HasDotDot(s[k + 1..]) ==> HasDotDot(s)
  {
    hide DotDotAt;
    var rest := s[k + 1..];
    if i: nat :| i < |rest| && DotDotAt(rest, i) {
      LaterDotDot(s, k, i);
      assert DotDotAt(s, k + 1 + i);
    }
  }

  lemma SomeDotDot(s: seq<Byte>, k: nat)
    requires k < |s| && s[k] == SLASH && (forall j :: 0 <= j < k ==> s[j] != SLASH) && HasDotDot(s)
    ensures s[..k] == DOTDOT || HasDotDot(s[k + 1..])
  {
    hide DotDotAt;
    var i: nat :| i < |s| && DotDotAt(s, i);
    DotDotPlace(s, k, i);
    if i > k {
      LaterDotDot(s, k, i - (k + 1));
      assert DotDotAt(s[k + 1..], i - (k + 1));
    }
  }

  lemma FirstDotDot(s: seq<Byte>, k: nat)
    requires k < |s| && s[k] == SLASH
    ensures s[..k] == DOTDOT ==> HasDotDot(s)
  {
    if s[..k] == DOTDOT {
      assert s[0] == s[..k][0] && s[1] == s[..k][1];
      assert DotDotAt(s, 0);
    }
  }

  lemma DotDotPlace(s: seq<Byte>, k: nat, i: nat)
    requires k < |s| && s[k] == SLASH && (forall j :: 0 <= j < k ==> s[j] != SLASH) && DotDotAt(s, i)
    ensures i != k && (i < k ==> s[..k] == DOTDOT)
  {
    if i < k {
      assert i == 0 && k == 2;
    }
  }

  lemma LaterDotDot(s: seq<Byte>, k: nat, i: nat)
    requires k < |s| && s[k] == SLASH && k + 1 + i <= |s|
    ensures DotDotAt(s[k + 1..], i) <==> DotDotAt(s, k + 1 + i)
  {
    var rest := s[k + 1..];
    if i > 0 {
      assert rest[i - 1] == s[k + i];
    }
    if i + 2 < |rest| {
      assert rest[i + 2] == s[k + 1 + i + 2];
    }
  }

  lemma TraversesAt(s: seq<Byte>)
    ensures Traverses(s) <==> (s != [] && s[0] == SLASH) || HasDotDot(s)
  {
    if ContainsAt(s, 0, [DOT, DOT, SLASH]) {
      assert s[0..3][0] == DOT && s[0..3][1] == DOT && s[0..3][2] == SLASH;
      assert DotDotAt(s, 0);
    }
    if s == DOTDOT {
      assert DotDotAt(s, 0);
    }
    if i: nat :| i < |s| && ContainsAt(s, i, [SLASH, DOT, DOT, SLASH]) {
      var x := s[i..i + 4];
      assert x[0] == SLASH && x[1] == DOT && x[2] == DOT && x[3] == SLASH;
      assert DotDotAt(s, i + 1);
    }
    if |s| >= 3 && ContainsAt(s, |s| - 3, [SLASH, DOT, DOT]) {
      var x := s[|s| - 3..|s|];
      assert x[0] == SLASH && x[1] == DOT && x[2] == DOT;
      assert DotDotAt(s, |s| - 2);
    }
    if i: nat :| i < |s| && DotDotAt(s, i) {
      DotDotTraverses(s, i);
    }
  }

  lemma DotDotTraverses(s: seq<Byte>, i: nat)
    requires DotDotAt(s, i)
    ensures Traverses(s)
  {
    if i == 0 {
      if |s| == 2 {
        assert s == DOTDOT;
      } else {
        assert s[0..3] == [DOT, DOT, SLASH];
        assert ContainsAt(s, 0, [DOT, DOT, SLASH]);
      }
    } else if i + 2 == |s| {
      assert s[|s| - 3..|s|] == [SLASH, DOT, DOT];
    } else {
      assert s[i - 1..i + 3] == [SLASH, DOT, DOT, SLASH];
      assert ContainsAt(s, i - 1, [SLASH, DOT, DOT, SLASH]);
    }
  }

  /** The path test is exact: a path passes if and only if it is relative and no component is "..". */
  lemma TraversalIsExact(s: seq<Byte>)
    ensures Traverses(s) <==> (s != [] && s[0] == SLASH) || DOTDOT in Split(s)
  {
    TraversesAt(s);
    DotDotComponent(s);
  }

  // ------------------------------------------------------------ The plan

  datatype Content = Nothing | Slice(at: nat, size: nat) | Target(text: seq<Byte>)

  datatype Kind = File | Directory | Symlink

  datatype Entry = Entry(path: seq<Byte>, permissions: nat, kind: Kind, content: Content)

  datatype Stats = Stats(files: nat, directories: nat, symlinks: nat, hardlinks: nat, bytes: nat)

  /** A plan under construction, with the space its names have taken. */
  datatype Plan = Plan(entries: seq<Entry>, used: nat, stats: Stats)

  function ContentSize(c: Content): nat {
    match c case Nothing => 0 case Slice(_, n) => n case Target(t) => |t|
  }

  /** A path below the caller's prefix. */
  function Joined(prefix: seq<Byte>, name: seq<Byte>): seq<Byte> {
    prefix + (if prefix != [] && prefix[|prefix| - 1] == SLASH then [] else [SLASH]) + name
  }

  function ArenaCap(image: seq<Byte>): nat { |image| / BLOCK * 300 + 4096 }

  /** Space after storing a name, if it fits. */
  function ArenaPut(used: nat, cap: nat, prefix: seq<Byte>, name: seq<Byte>): Option<nat> {
    if used + |prefix| + |name| + 2 > cap then None else Some(used + |Joined(prefix, name)| + 1)
  }

  predicate EndsWith(s: seq<Byte>, x: seq<Byte>) { |x| <= |s| && s[|s| - |x|..] == x }

  /** The first earlier regular member whose path ends with a link's text. */
  function LinkSource(entries: seq<Entry>, link: seq<Byte>): (r: Option<nat>)
    ensures r.Some? ==> r.value < |entries| && entries[r.value].kind == File
  {
    if entries == [] then None
    else if EndsWith(entries[0].path, link) && entries[0].kind == File then Some(0)
    else match LinkSource(entries[1..], link) case None => None case Some(i) => Some(i + 1)
  }

  predicate Fatal(t: Byte) { t == 0x4c || t == 0x4b }

  predicate Metadata(t: Byte) { t == 0x78 || t == 0x67 || t == 0x56 || t == 0x33 || t == 0x34 || t == 0x36 }

  predicate Known(t: Byte) { t == 0x35 || t == 0x32 || t == 0x31 || t == 0x30 || t == 0 }

  /** Members that carry nothing the plan could use. */
  predicate Ignored(h: seq<Byte>)
    requires IsHeader(h)
  {
    Metadata(Type(h)) || MemberName(h) == [] || MemberName(h) == [DOT]
  }

  /** A member that becomes an entry. */
  predicate Usable(h: seq<Byte>)
    requires IsHeader(h)
  {
    !Ignored(h) && Known(Type(h))
  }

  /** The plan with a member's entry and its statistics added, or refusal. */
  function Added(p: Plan, h: seq<Byte>, content: nat, size: nat, mode: nat, prefix: seq<Byte>, used: nat, cap: nat): Option<Plan>
    requires IsHeader(h)
  {
    var path, permissions, link := Joined(prefix, MemberName(h)), mode % 0x1000, LinkName(h);
    var s := p.stats;
    if Type(h) == 0x35 then
      Some(Plan(p.entries + [Entry(path, permissions, Directory, Nothing)], used, s.(directories := s.directories + 1)))
    else if Type(h) == 0x32 then
      if link == [] || !Printable(link) then None
      else
        match ArenaPut(used, cap, [], link)
        case None => None
        case Some(now) => Some(Plan(p.entries + [Entry(path, permissions, Symlink, Target(link))], now, s.(symlinks := s.symlinks + 1)))
    else if Type(h) == 0x31 then
      match LinkSource(p.entries, link)
      case None => None
      case Some(i) =>
        var c := p.entries[i].content;
        Some(Plan(p.entries + [Entry(path, permissions, File, c)], used,
                  s.(hardlinks := s.hardlinks + 1, bytes := s.bytes + ContentSize(c))))
    else if Type(h) != 0x30 && Type(h) != 0 then Some(p.(used := used))
    else if size > MAX_ENTRY_BYTES then None
    else
      var c := if size == 0 then Nothing else Slice(content, size);
      Some(Plan(p.entries + [Entry(path, permissions, File, c)], used, s.(files := s.files + 1, bytes := s.bytes + size)))
  }

  function Rounded(size: nat): nat { (size + BLOCK - 1) / BLOCK * BLOCK }

  /** One member: the plan after it, or refusal. */
  function Member(p: Plan, h: seq<Byte>, content: nat, prefix: seq<Byte>, cap: nat): Option<Plan>
    requires IsHeader(h) && Mode(h).Some? && Size(h).Some?
  {
    if Fatal(Type(h)) then None
    else if Ignored(h) then Some(p)
    else if Traverses(MemberName(h)) || !Printable(MemberName(h)) then None
    else if |p.entries| >= MAX_ENTRIES then None
    else
      match ArenaPut(p.used, cap, prefix, MemberName(h))
      case None => None
      case Some(used) => Added(p, h, content, Size(h).value, Mode(h).value, prefix, used, cap)
  }

  /** Does the archive go on at `off`? */
  predicate Continues(image: seq<Byte>, off: nat) { off + BLOCK <= |image| && !AllZero(image[off..off + BLOCK]) }

  /** The member at `off` is whole: checksum, octal fields and body. */
  predicate Whole(image: seq<Byte>, off: nat)
    requires off + BLOCK <= |image|
  {
    var h := image[off..off + BLOCK];
    ChecksumOk(h) && Mode(h).Some? && Size(h).Some? && off + BLOCK + Rounded(Size(h).value) <= |image|
  }

  function NextMember(image: seq<Byte>, off: nat): (next: nat)
    requires off + BLOCK <= |image| && Whole(image, off)
    ensures off < next <= |image|
  {
    off + BLOCK + Rounded(Size(image[off..off + BLOCK]).value)
  }

  /** The plan after all members from `off` on. */
  function PlanFrom(image: seq<Byte>, off: nat, prefix: seq<Byte>, p: Plan): Option<Plan>
    decreases |image| - off
  {
    if !Continues(image, off) then Some(p)
    else if !Whole(image, off) then None
    else
      match Member(p, image[off..off + BLOCK], off + BLOCK, prefix, ArenaCap(image))
      case None => None
      case Some(q) => PlanFrom(image, NextMember(image, off), prefix, q)
  }

  const EMPTY: Plan := Plan([], 0, Stats(0, 0, 0, 0, 0))

  /** The plan of an archive; an archive without usable members is refused. */
  function PlanOf(image: seq<Byte>, prefix: seq<Byte>): Option<Plan> {
    match PlanFrom(image, 0, prefix, EMPTY)
    case None => None
    case Some(p) => if image == [] || p.entries == [] then None else Some(p)
  }

  // ------------------------------------------------------------ The reader

  /** The object the caller keeps: the plan over an archive image. */
  class Payload {
    var entries: seq<Entry>
    var used: nat
    var stats: Stats

    function State(): Plan
      reads this
    {
      Plan(entries, used, stats)
    }

    constructor ()
      ensures State() == EMPTY
    {
      entries, used, stats := [], 0, Stats(0, 0, 0, 0, 0);
    }

    /** One member whose header is `h`. */
    method Take(h: seq<Byte>, content: nat, size: nat, mode: nat, prefix: seq<Byte>, cap: nat) returns (ok: bool)
      requires IsHeader(h) && Mode(h) == Some(mode) && Size(h) == Some(size)
      modifies this
      ensures Member(old(State()), h, content, prefix, cap) == if ok then Some(State()) else None
    {
      hide MemberName, LinkName, Traverses, Printable, LinkSource, Mode, Size, Octal;
      var flag := Type(h);
      if Fatal(flag) {
        return false;
      }
      if Metadata(flag) {
        return true;
      }
      var name := MemberName(h);
      if name == [] || name == [DOT] {
        return true;
      }
      if Traverses(name) || !Printable(name) {
        return false;
      }
      if |entries| >= MAX_ENTRIES {
        return false;
      }
      var place := ArenaPut(used, cap, prefix, name);
      if place.None? {
        return false;
      }
      used := place.value;
      var path, permissions, link := Joined(prefix, name), mode % 0x1000, LinkName(h);
      if flag == 0x35 {
        entries := entries + [Entry(path, permissions, Directory, Nothing)];
        stats := stats.(directories := stats.directories + 1);
      } else if flag == 0x32 {
        if link == [] || !Printable(link) {
          return false;
        }
        var target := ArenaPut(used, cap, [], link);
        if target.None? {
          return false;
        }
        used := target.value;
        entries := entries + [Entry(path, permissions, Symlink, Target(link))];
        stats := stats.(symlinks := stats.symlinks + 1);
      } else if flag == 0x31 {
        var source := FindSource(link);
        if source.None? {
          return false;
        }
        var c := entries[source.value].content;
        entries := entries + [Entry(path, permissions, File, c)];
        stats := stats.(hardlinks := stats.hardlinks + 1, bytes := stats.bytes + ContentSize(c));
      } else if flag == 0x30 || flag == 0 {
        if size > MAX_ENTRY_BYTES {
          return false;
        }
        entries := entries + [Entry(path, permissions, File, if size == 0 then Nothing else Slice(content, size))];
        stats := stats.(files := stats.files + 1, bytes := stats.bytes + size);
      }
      return true;
    }

    /** Searches the members so far for a hard link's source. */
    method FindSource(link: seq<Byte>) returns (source: Option<nat>)
      ensures source == LinkSource(entries, link)
    {
      var i: nat := 0;
      NoSource(entries, 0, link);
      while i < |entries|
        invariant i <= |entries| && forall k :: 0 <= k < i ==> !(EndsWith(entries[k].path, link) && entries[k].kind == File)
      {
        if EndsWith(entries[i].path, link) && entries[i].kind == File {
          SourceAt(entries, i, link);
          return Some(i);
        }
        i := i + 1;
      }
      NoSource(entries, |entries|, link);
      return None;
    }

    /** Reads the whole archive. */
    method Load(image: seq<Byte>, prefix: seq<Byte>) returns (ok: bool)
      requires State() == EMPTY
      modifies this
      ensures PlanOf(image, prefix) == if ok then Some(State()) else None
    {
      hide Member, ChecksumOk, Mode, Size, AllZero, Octal;
      if image == [] {
        return false;
      }
      var off: nat := 0;
      ghost var all := PlanFrom(image, 0, prefix, EMPTY);
      while off + BLOCK <= |image|
        invariant all == PlanFrom(image, off, prefix, State())
        decreases |image| - off
      {
        var h := image[off..off + BLOCK];
        if AllZero(h) {
          break;
        }
        var sound := CheckSum(h);
        if !sound {
          return false;
        }
        var mode, size := ReadFields(h);
        if mode.None? || size.None? {
          return false;
        }
        if off + BLOCK + Rounded(size.value) > |image| {
          return false;
        }
        var taken := Take(h, off + BLOCK, size.value, mode.value, prefix, ArenaCap(image));
        if !taken {
          return false;
        }
        off := off + BLOCK + Rounded(size.value);
      }
      return entries != [];
    }
  }

  method ReadFields(h: seq<Byte>) returns (mode: Option<nat>, size: Option<nat>)
    requires IsHeader(h)
    ensures mode == Mode(h) && size == Size(h)
  {
    mode := OctalField(h[100..108]);
    size := OctalField(h[124..136]);
  }

  lemma {:induction false} NoSource(entries: seq<Entry>, n: nat, link: seq<Byte>)
    requires n <= |entries| && forall k :: 0 <= k < n ==> !(EndsWith(entries[k].path, link) && entries[k].kind == File)
    ensures n == |entries| ==> LinkSource(entries, link) == None
  {
    hide EndsWith;
    if entries != [] && n == |entries| {
      NoSource(entries[1..], n - 1, link);
    }
  }

  lemma {:induction false} SourceAt(entries: seq<Entry>, i: nat, link: seq<Byte>)
    requires i < |entries| && EndsWith(entries[i].path, link) && entries[i].kind == File
    requires forall k :: 0 <= k < i ==> !(EndsWith(entries[k].path, link) && entries[k].kind == File)
    ensures LinkSource(entries, link) == Some(i)
  {
    hide EndsWith;
    if i > 0 {
      SourceAt(entries[1..], i - 1, link);
    }
  }

  // ------------------------------------------------------------ What a plan guarantees

  function FileBytes(entries: seq<Entry>): nat {
    if entries == [] then 0
    else
      var e := entries[|entries| - 1];
      FileBytes(entries[..|entries| - 1]) + if e.kind == File then ContentSize(e.content) else 0
  }

  /** A safe name below the prefix, contents inside the image and within the size limit. */
  ghost predicate EntrySafe(e: Entry, image: seq<Byte>, prefix: seq<Byte>) {
    && (exists name :: e.path == Joined(prefix, name) && SafeName(name))
    && e.permissions < 0x1000
    && (e.kind == File ==> match e.content
                           case Nothing => true
                           case Slice(at, n) => 0 < n <= MAX_ENTRY_BYTES && at + n <= |image|
                           case Target(_) => false)
    && (e.kind == Symlink ==> e.content.Target? && e.content.text != [] && Printable(e.content.text))
    && (e.kind == Directory ==> e.content == Nothing)
  }

  ghost predicate SafeName(name: seq<Byte>) {
    name != [] && name[0] != SLASH && name[|name| - 1] != SLASH && DOTDOT !in Split(name) && Printable(name)
  }

  /** Statistics that account for every entry, and only safe entries. */
  ghost predicate Sound(p: Plan, image: seq<Byte>, prefix: seq<Byte>) {
    && |p.entries| <= MAX_ENTRIES
    && p.stats.files + p.stats.directories + p.stats.symlinks + p.stats.hardlinks == |p.entries|
    && p.stats.bytes == FileBytes(p.entries)
    && p.used <= ArenaCap(image)
    && forall i :: 0 <= i < |p.entries| ==> EntrySafe(p.entries[i], image, prefix)
  }

  lemma {:induction false} StrippedEnd(s: seq<Byte>)
    ensures Stripped(s) == [] || Stripped(s)[|Stripped(s)| - 1] != SLASH
  {
    if s != [] && s[|s| - 1] == SLASH {
      StrippedEnd(s[..|s| - 1]);
    }
  }

  lemma NameIsSafe(h: seq<Byte>)
    requires IsHeader(h) && MemberName(h) != [] && !Traverses(MemberName(h)) && Printable(MemberName(h))
    ensures SafeName(MemberName(h))
  {
    hide FullName, Traverses, Printable, Split;
    StrippedEnd(FullName(h));
    TraversalIsExact(MemberName(h));
  }

  lemma OneMoreEntry(p: Plan, e: Entry, image: seq<Byte>, prefix: seq<Byte>, used: nat, stats: Stats)
    requires Sound(p, image, prefix) && |p.entries| < MAX_ENTRIES && EntrySafe(e, image, prefix) && used <= ArenaCap(image)
    requires stats.files + stats.directories + stats.symlinks + stats.hardlinks
             == p.stats.files + p.stats.directories + p.stats.symlinks + p.stats.hardlinks + 1
    requires stats.bytes == p.stats.bytes + if e.kind == File then ContentSize(e.content) else 0
    ensures Sound(Plan(p.entries + [e], used, stats), image, prefix)
  {
    hide EntrySafe;
    assert (p.entries + [e])[..|p.entries|] == p.entries;
  }

  lemma MemberKeepsSound(p: Plan, h: seq<Byte>, content: nat, image: seq<Byte>, prefix: seq<Byte>)
    requires IsHeader(h) && Mode(h).Some? && Size(h).Some? && Sound(p, image, prefix) && content + Size(h).value <= |image|
    ensures var q := Member(p, h, content, prefix, ArenaCap(image)); q.Some? ==> Sound(q.value, image, prefix)
  {
    hide MemberName, LinkName, Traverses, Printable, Mode, Size, LinkSource, Joined, SafeName, Sound, ArenaCap;
    var q := Member(p, h, content, prefix, ArenaCap(image));
    if q.Some? && !Ignored(h) {
      NameIsSafe(h);
      SoundFits(p, image, prefix);
      AddedKeepsSound(p, h, content, image, prefix, ArenaPut(p.used, ArenaCap(image), prefix, MemberName(h)).value);
    }
  }

  lemma SoundFits(p: Plan, image: seq<Byte>, prefix: seq<Byte>)
    requires Sound(p, image, prefix)
    ensures forall i :: 0 <= i < |p.entries| ==> EntrySafe(p.entries[i], image, prefix)
    ensures p.used <= ArenaCap(image)
  {
    hide EntrySafe;
  }

  lemma ArenaFits(used: nat, cap: nat, prefix: seq<Byte>, name: seq<Byte>)
    requires ArenaPut(used, cap, prefix, name).Some?
    ensures ArenaPut(used, cap, prefix, name).value <= cap
  {
  }

  lemma AddedKeepsSound(p: Plan, h: seq<Byte>, content: nat, image: seq<Byte>, prefix: seq<Byte>, used: nat)
    requires IsHeader(h) && Mode(h).Some? && Size(h).Some? && Sound(p, image, prefix) && content + Size(h).value <= |image|
    requires |p.entries| < MAX_ENTRIES && SafeName(MemberName(h))
    requires ArenaPut(p.used, ArenaCap(image), prefix, MemberName(h)) == Some(used)
    ensures var q := Added(p, h, content, Size(h).value, Mode(h).value, prefix, used, ArenaCap(image));
            q.Some? ==> Sound(q.value, image, prefix)
  {
    hide MemberName, LinkName, Printable, Mode, Size, LinkSource, Joined, SafeName, Sound, ArenaCap, FileBytes;
    ArenaFits(p.used, ArenaCap(image), prefix, MemberName(h));
    var q := Added(p, h, content, Size(h).value, Mode(h).value, prefix, used, ArenaCap(image));
    SoundFits(p, image, prefix);
    if q.Some? {
      if |q.value.entries| > |p.entries| {
        var e := q.value.entries[|p.entries|];
        if Type(h) == 0x32 {
          ArenaFits(used, ArenaCap(image), [], LinkName(h));
        }
        if Type(h) == 0x31 {
          assert EntrySafe(p.entries[LinkSource(p.entries, LinkName(h)).value], image, prefix);
        }
        assert e.path == Joined(prefix, MemberName(h));
        assert EntrySafe(e, image, prefix);
        OneMoreEntry(p, e, image, prefix, q.value.used, q.value.stats);
      } else {
        UsedOnly(p, image, prefix, used);
      }
    }
  }

  lemma UsedOnly(p: Plan, image: seq<Byte>, prefix: seq<Byte>, used: nat)
    requires Sound(p, image, prefix) && used <= ArenaCap(image)
    ensures Sound(p.(used := used), image, prefix)
  {
    hide EntrySafe;
  }

  lemma RoundedCovers(size: nat)
    ensures Rounded(size) >= size
  {
  }

  /** Every plan an archive gives is sound. */
  lemma {:induction false} PlanIsSound(image: seq<Byte>, off: nat, prefix: seq<Byte>, p: Plan)
    requires Sound(p, image, prefix)
    ensures var q := PlanFrom(image, off, prefix, p); q.Some? ==> Sound(q.value, image, prefix)
    decreases |image| - off
  {
    hide Sound, Member, ChecksumOk, Mode, Size, ArenaCap, AllZero;
    if Continues(image, off) && Whole(image, off) {
      var h := image[off..off + BLOCK];
      RoundedCovers(Size(h).value);
      MemberKeepsSound(p, h, off + BLOCK, image, prefix);
      var q := Member(p, h, off + BLOCK, prefix, ArenaCap(image));
      if q.Some? {
        PlanIsSound(image, NextMember(image, off), prefix, q.value);
      }
    }
  }

  // ------------------------------------------------------------ Exactly the usable members

  /** Offsets of the members of an archive from `off` on. */
  function Members(image: seq<Byte>, off: nat): seq<nat>
    decreases |image| - off
  {
    if Continues(image, off) && Whole(image, off) then [off] + Members(image, NextMember(image, off)) else []
  }

  function UsableOnly(image: seq<Byte>, offs: seq<nat>): seq<nat>
    requires forall i :: 0 <= i < |offs| ==> offs[i] + BLOCK <= |image|
  {
    if offs == [] then []
    else (if Usable(image[offs[0]..offs[0] + BLOCK]) then [offs[0]] else []) + UsableOnly(image, offs[1..])
  }

  /** An entry, coming after those of `before`, is that of the member at `off`. */
  ghost predicate Describes(e: Entry, before: seq<Entry>, image: seq<Byte>, off: nat, prefix: seq<Byte>) {
    && off + BLOCK <= |image|
    && var h := image[off..off + BLOCK];
       && Mode(h).Some? && Size(h).Some?
       && e.path == Joined(prefix, MemberName(h)) && e.permissions == Mode(h).value % 0x1000
       && if Type(h) == 0x35 then e.kind == Directory
          else if Type(h) == 0x32 then e.kind == Symlink && e.content == Target(LinkName(h))
          else if Type(h) == 0x31 then
            var source := LinkSource(before, LinkName(h));
            e.kind == File && source.Some? && e.content == before[source.value].content
          else e.kind == File && e.content == if Size(h).value == 0 then Nothing else Slice(off + BLOCK, Size(h).value)
  }

  lemma {:induction false} MembersInside(image: seq<Byte>, off: nat)
    ensures forall i :: 0 <= i < |Members(image, off)| ==> Members(image, off)[i] + BLOCK <= |image|
    decreases |image| - off
  {
    hide Whole, AllZero;
    if Continues(image, off) && Whole(image, off) {
      MembersInside(image, NextMember(image, off));
    }
  }

  /** What one member adds is its own entry, if it is usable, and nothing otherwise. */
  lemma MemberAdds(p: Plan, image: seq<Byte>, off: nat, prefix: seq<Byte>)
    requires off + BLOCK <= |image| && Whole(image, off)
    ensures var h := image[off..off + BLOCK];
            var q := Member(p, h, off + BLOCK, prefix, ArenaCap(image));
            q.Some? ==> if Usable(h) then |q.value.entries| == |p.entries| + 1 && q.value.entries[..|p.entries|] == p.entries
                                          && Describes(q.value.entries[|p.entries|], p.entries, image, off, prefix)
                        else q.value.entries == p.entries
  {
    hide MemberName, LinkName, Traverses, Printable, Mode, Size, LinkSource, Joined, ArenaCap, ChecksumOk, Octal;
  }

  lemma WholeReads(image: seq<Byte>, off: nat)
    requires off + BLOCK <= |image| && Whole(image, off)
    ensures var h := image[off..off + BLOCK]; Mode(h).Some? && Size(h).Some?
  {
    hide ChecksumOk, Mode, Size;
  }

  /** The entries of a plan are exactly the usable members, in archive order. */
  lemma {:induction false} PlanIsUsableMembers(image: seq<Byte>, off: nat, prefix: seq<Byte>, p: Plan)
    requires PlanFrom(image, off, prefix, p).Some?
    ensures forall i :: 0 <= i < |Members(image, off)| ==> Members(image, off)[i] + BLOCK <= |image|
    ensures var q := PlanFrom(image, off, prefix, p).value;
            var used := UsableOnly(image, Members(image, off));
            && |q.entries| == |p.entries| + |used| && q.entries[..|p.entries|] == p.entries
            && forall i :: 0 <= i < |used| ==> Describes(q.entries[|p.entries| + i], q.entries[..|p.entries| + i], image, used[i], prefix)
    decreases |image| - off
  {
    hide Whole, AllZero, Member, Usable, Describes, ArenaCap;
    MembersInside(image, off);
    if Continues(image, off) {
      var h := image[off..off + BLOCK];
      var next := NextMember(image, off);
      MemberAdds(p, image, off, prefix);
      WholeReads(image, off);
      var q := Member(p, h, off + BLOCK, prefix, ArenaCap(image)).value;
      PlanIsUsableMembers(image, next, prefix, q);
      var last := PlanFrom(image, next, prefix, q).value;
      assert last.entries[..|q.entries|][..|p.entries|] == last.entries[..|p.entries|];
      assert Members(image, off)[1..] == Members(image, next);
      if Usable(h) {
        assert last.entries[|p.entries|] == last.entries[..|q.entries|][|p.entries|];
        var used, later := UsableOnly(image, Members(image, off)), UsableOnly(image, Members(image, next));
        assert used == [off] + later;
        forall i | 0 <= i < |used|
          ensures Describes(last.entries[|p.entries| + i], last.entries[..|p.entries| + i], image, used[i], prefix)
        {
          if i > 0 {
            assert used[i] == later[i - 1];
          } else {
            assert last.entries[..|p.entries| + i] == p.entries;
          }
        }
      }
    }
  }

  /** An accepted archive: sound, and its entries are exactly its usable members. */
  lemma PlanCorrect(image: seq<Byte>, prefix: seq<Byte>)
    requires PlanOf(image, prefix).Some?
    ensures var p := PlanOf(image, prefix).value;
            && Sound(p, image, prefix)
            && (forall i :: 0 <= i < |Members(image, 0)| ==> Members(image, 0)[i] + BLOCK <= |image|)
            && var used := UsableOnly(image, Members(image, 0));
               |p.entries| == |used| > 0 && forall i :: 0 <= i < |used| ==> Describes(p.entries[i], p.entries[..i], image, used[i], prefix)
  {
    hide PlanFrom, Describes;
    PlanIsSound(image, 0, prefix, EMPTY);
    PlanIsUsableMembers(image, 0, prefix, EMPTY);
  }
}
