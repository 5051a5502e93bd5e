/** Writing ustar archives, and reading them back. */
module TarWriter {
  import opened Text
  import opened Words
  import opened PayloadTar

  // ------------------------------------------------------------ Fields

  function Zeros(n: nat): (z: seq<Byte>)
    ensures |z| == n && forall i :: 0 <= i < n ==> z[i] == 0
  {
    seq(n, i => 0)
  }

  function Slashes(n: nat): (z: seq<Byte>)
    ensures |z| == n && forall i :: 0 <= i < n ==> z[i] == SLASH
  {
    seq(n, i => SLASH)
  }

  /** A text field, ended by a zero byte unless it is full. */
  function TextField(s: seq<Byte>, n: nat): (f: seq<Byte>)
    requires |s| <= n
    ensures |f| == n
  {
    s + Zeros(n - |s|)
  }

  /** The last `n` octal digits of a number, most significant first. */
  function OctalText(v: nat, n: nat): (d: seq<Byte>)
    ensures |d| == n
  {
    if n == 0 then [] else OctalText(v / 8, n - 1) + [ZERO + v % 8]
  }

  lemma {:induction false} OctalTextReads(v: nat, n: nat)
    requires v < Pow8(n)
    ensures IsOctal(OctalText(v, n)) && OctalValue(OctalText(v, n)) == v
  {
    if n > 0 {
      OctalTextReads(v / 8, n - 1);
      var d := OctalText(v, n);
      assert d[..n - 1] == OctalText(v / 8, n - 1) && d[n - 1] == ZERO + v % 8;
    }
  }

  /** A number written with `n` digits and some padding behind it reads back. */
  lemma NumberReads(v: nat, n: nat, pad: seq<Byte>)
    requires v < Pow8(n) && n > 0 && pad != [] && Pad(pad[0])
    ensures Octal(OctalText(v, n) + pad) == Some(v)
  {
    hide OctalText, OctalValue;
    var d := OctalText(v, n);
    var p := d + pad;
    OctalTextReads(v, n);
    assert p[..n] == d;
    assert Trimmed(p) == p;
    DigitsAre(p, n);
  }

  /** A padding byte: a space or a zero byte. */
  predicate Blank(b: Byte) { b == ' ' as int || b == 0 }

  lemma {:induction false} BlanksDrop(lead: seq<Byte>, p: seq<Byte>)
    requires forall i :: 0 <= i < |lead| ==> Blank(lead[i])
    ensures Trimmed(lead + p) == Trimmed(p)
  {
    if lead == [] {
      assert lead + p == p;
    } else {
      assert (lead + p)[1..] == lead[1..] + p;
      BlanksDrop(lead[1..], p);
    }
  }

  /** A number reads back behind any padding, and up to any padding or the end of its field; a field of padding is zero; a digit
      that is none refuses. */
  lemma PaddedReads(lead: seq<Byte>, v: nat, n: nat, rest: seq<Byte>, b: Byte)
    requires v < Pow8(n) && n > 0 && (forall i :: 0 <= i < |lead| ==> Blank(lead[i])) && (rest == [] || Blank(rest[0]))
    ensures Octal(lead + OctalText(v, n) + rest) == Some(v) && Octal(lead) == Some(0)
    ensures !Blank(b) && !('0' as int <= b <= '7' as int) ==> Octal(lead + OctalText(v, n) + [b] + rest) == None
  {
    hide OctalText, OctalValue, Octal;
    var d := OctalText(v, n);
    OctalTextReads(v, n);
    BlanksDrop(lead, []);
    assert lead + [] == lead;
    NothingReads(lead);
    assert lead + d + rest == lead + (d + rest) && lead + d + [b] + rest == lead + (d + [b] + rest);
    BlanksDrop(lead, d + rest);
    BlanksDrop(lead, d + [b] + rest);
    DigitsRead(lead + d + rest, d + rest, n);
    if !Blank(b) && !('0' as int <= b <= '7' as int) {
      DigitsRead(lead + d + [b] + rest, d + [b] + rest, n + 1);
      assert (d + [b] + rest)[..n + 1][n] == b;
    }
    assert (d + rest)[..n] == d;
  }

  lemma NothingReads(p: seq<Byte>)
    requires Trimmed(p) == []
    ensures Octal(p) == Some(0)
  {
  }

  lemma DigitsRead(p: seq<Byte>, q: seq<Byte>, n: nat)
    requires Trimmed(p) == Trimmed(q) && 0 < n <= |q| && (forall k :: 0 <= k < n ==> !Blank(q[k])) && (n == |q| || Blank(q[n]))
    ensures Octal(p) == if IsOctal(q[..n]) then Some(OctalValue(q[..n])) else None
  {
    assert Trimmed(q) == q;
    DigitsAre(q, n);
  }

  predicate NoZero(s: seq<Byte>) { forall i :: 0 <= i < |s| ==> s[i] != 0 }

  lemma {:induction false} TextReads(s: seq<Byte>, n: nat)
    requires NoZero(s)
    ensures CString(s + Zeros(n)) == s
  {
    if s == [] {
      assert s + Zeros(n) == Zeros(n);
    } else {
      assert (s + Zeros(n))[1..] == s[1..] + Zeros(n);
      TextReads(s[1..], n);
    }
  }

  // ------------------------------------------------------------ Members

  datatype Body = Regular(bytes: seq<Byte>, nulType: bool) | Folder | Soft(target: seq<Byte>) | Hard(target: seq<Byte>)

  /** A member: its path, at which of its slashes it is split between the two name fields, how many slashes follow it, its mode,
      its body, and whatever stands in the fields the reader does not look at. */
  datatype Member = Member(path: seq<Byte>, cut: Option<nat>, slashes: nat, mode: nat, body: Body,
                           owner: seq<Byte>, time: seq<Byte>, names: seq<Byte>, tail: seq<Byte>)

  function NamePart(m: Member): seq<Byte>
    requires m.cut.Some? ==> m.cut.value < |m.path|
  {
    (if m.cut.Some? then m.path[m.cut.value + 1..] else m.path) + Slashes(m.slashes)
  }

  function PrefixPart(m: Member): seq<Byte>
    requires m.cut.Some? ==> m.cut.value < |m.path|
  {
    if m.cut.Some? then m.path[..m.cut.value] else []
  }

  function Target(b: Body): seq<Byte> { if b.Soft? || b.Hard? then b.target else [] }

  function Size(b: Body): nat { if b.Regular? then |b.bytes| else 0 }

  function TypeOf(b: Body): Byte {
    match b case Regular(_, nulType) => (if nulType then 0 else 0x30) case Folder => 0x35 case Soft(_) => 0x32 case Hard(_) => 0x31
  }

  /** A member a ustar writer can write and the reader has no reason to refuse by itself. */
  ghost predicate Writable(m: Member) {
    && SafeName(m.path) && m.path != [DOT]
    && (m.cut.Some? ==> 0 < m.cut.value < |m.path| && m.path[m.cut.value] == SLASH)
    && |NamePart(m)| <= 100 && |PrefixPart(m)| <= 155
    && m.mode < Pow8(7)
    && (m.body.Regular? ==> |m.body.bytes| <= MAX_ENTRY_BYTES)
    && |Target(m.body)| <= 100 && NoZero(Target(m.body))
    && (m.body.Soft? ==> m.body.target != [] && Printable(m.body.target))
    && |m.owner| == 16 && |m.time| == 12 && |m.names| == 88 && |m.tail| == 12
  }

  /** Everything before the checksum field, and everything behind it. */
  function Front(m: Member): (f: seq<Byte>)
    requires m.cut.Some? ==> m.cut.value < |m.path|
    requires |NamePart(m)| <= 100
  {
    TextField(NamePart(m), 100) + (OctalText(m.mode, 7) + [0]) + m.owner + (OctalText(Size(m.body), 11) + [0]) + m.time
  }

  function Back(m: Member): (b: seq<Byte>)
    requires m.cut.Some? ==> m.cut.value < |m.path|
    requires |PrefixPart(m)| <= 155 && |Target(m.body)| <= 100
  {
    [TypeOf(m.body)] + TextField(Target(m.body), 100) + m.names + TextField(PrefixPart(m), 155) + m.tail
  }

  const SPACES: seq<Byte> := [SPACE, SPACE, SPACE, SPACE, SPACE, SPACE, SPACE, SPACE]

  function Total(s: seq<Byte>): nat {
    if s == [] then 0 else Total(s[..|s| - 1]) + s[|s| - 1]
  }

  /** A ustar header; its checksum is the sum of its bytes with the checksum field as spaces. */
  function Header(m: Member): (h: seq<Byte>)
    requires m.cut.Some? ==> m.cut.value < |m.path|
    requires |NamePart(m)| <= 100 && |PrefixPart(m)| <= 155 && |Target(m.body)| <= 100
  {
    Front(m) + (OctalText(Total(Front(m) + SPACES + Back(m)), 6) + [0, SPACE]) + Back(m)
  }

  /** Header, contents, and zeros up to a whole block. */
  function Written(m: Member): seq<Byte>
    requires m.cut.Some? ==> m.cut.value < |m.path|
    requires |NamePart(m)| <= 100 && |PrefixPart(m)| <= 155 && |Target(m.body)| <= 100
  {
    Header(m) + (if m.body.Regular? then m.body.bytes else []) + Zeros(Rounded(Size(m.body)) - Size(m.body))
  }

  ghost predicate AllWritable(ms: seq<Member>) { forall i :: 0 <= i < |ms| ==> Writable(ms[i]) }

  ghost function Concat(ms: seq<Member>): seq<Byte>
    requires AllWritable(ms)
  {
    if ms == [] then [] else Written(ms[0]) + Concat(ms[1..])
  }

  /** An archive: its members and two blocks of zeros. */
  ghost function Archive(ms: seq<Member>): seq<Byte>
    requires AllWritable(ms)
  {
    Concat(ms) + Zeros(2 * BLOCK)
  }

  // ------------------------------------------------------------ Reading a header back

  lemma Bounds(m: Member)
    requires Writable(m)
    ensures m.cut.Some? ==> m.cut.value < |m.path|
    ensures |NamePart(m)| <= 100 && |PrefixPart(m)| <= 155 && |Target(m.body)| <= 100
    ensures |m.owner| == 16 && |m.time| == 12 && |m.names| == 88 && |m.tail| == 12
  {
  }

  lemma {:induction false} TotalBelow(s: seq<Byte>)
    ensures Total(s) <= 255 * |s|
  {
    if s != [] {
      TotalBelow(s[..|s| - 1]);
    }
  }

  /** The reader's sum of a header is the plain sum of the same header with spaces for its checksum. */
  lemma {:induction false} SumIsTotal(h: seq<Byte>, blank: seq<Byte>, n: nat)
    requires IsHeader(h) && IsHeader(blank) && n <= BLOCK
    requires forall i :: 0 <= i < BLOCK ==> blank[i] == if 148 <= i < 156 then SPACE else h[i]
    ensures HeaderSum(h, n) == Total(blank[..n])
  {
    if n > 0 {
      SumIsTotal(h, blank, n - 1);
      assert blank[..n][..n - 1] == blank[..n - 1];
    }
  }

  lemma Lengths(m: Member)
    requires Writable(m)
    ensures |Front(m)| == 148 && |Back(m)| == 356 && |Header(m)| == BLOCK
    ensures Header(m)[..148] == Front(m) && Header(m)[156..] == Back(m)
    ensures Header(m)[148..156] == OctalText(Total(Front(m) + SPACES + Back(m)), 6) + [0, SPACE]
  {
    hide SafeName, Printable, OctalText, Total;
  }

  lemma Pow8Small()
    ensures Pow8(6) == 0x4_0000 && Pow8(7) == 0x20_0000 && Pow8(11) == 0x2_0000_0000
  {
    assert Pow8(3) == 512;
    assert Pow8(6) == 512 * Pow8(3);
    assert Pow8(9) == 512 * Pow8(6);
  }

  lemma SumReads(m: Member)
    requires Writable(m)
    ensures IsHeader(Header(m)) && ChecksumOk(Header(m))
  {
    hide SafeName, Printable, OctalText, Total, Front, Back, HeaderSum, Octal, Writable;
    Bounds(m);
    Lengths(m);
    var h, blank := Header(m), Front(m) + SPACES + Back(m);
    forall i | 0 <= i < BLOCK
      ensures blank[i] == if 148 <= i < 156 then SPACE else h[i]
    {
      if i < 148 {
        assert h[i] == h[..148][i];
      } else if i >= 156 {
        assert h[i] == h[156..][i - 156];
      }
    }
    SumIsTotal(h, blank, BLOCK);
    assert blank[..BLOCK] == blank;
    TotalBelow(blank);
    Pow8Small();
    NumberReads(Total(blank), 6, [0, SPACE]);
  }

  /** Where the fields of a header stand. */
  lemma FieldsStand(m: Member)
    requires Writable(m)
    ensures var h := Header(m);
            && |h| == BLOCK
            && h[0..100] == NamePart(m) + Zeros(100 - |NamePart(m)|) && h[100..108] == OctalText(m.mode, 7) + [0]
            && h[124..136] == OctalText(Size(m.body), 11) + [0] && h[156] == TypeOf(m.body)
            && h[157..257] == Target(m.body) + Zeros(100 - |Target(m.body)|)
            && h[345..500] == PrefixPart(m) + Zeros(155 - |PrefixPart(m)|)
  {
    hide SafeName, Printable, OctalText, Total, Writable, NamePart, PrefixPart;
    Bounds(m);
    Lengths(m);
    var h, f, b := Header(m), Front(m), Back(m);
    InFront(m);
    InBack(m);
    assert h[0..100] == h[..148][0..100] && h[100..108] == h[..148][100..108] && h[124..136] == h[..148][124..136];
    assert h[156] == h[156..][0] && h[157..257] == h[156..][1..101] && h[345..500] == h[156..][189..344];
  }

  lemma InFront(m: Member)
    requires Writable(m)
    ensures |Front(m)| == 148
    ensures Front(m)[0..100] == TextField(NamePart(m), 100) && Front(m)[100..108] == OctalText(m.mode, 7) + [0]
    ensures Front(m)[124..136] == OctalText(Size(m.body), 11) + [0]
  {
    hide SafeName, Printable, OctalText, NamePart, PrefixPart, TextField;
  }

  lemma InBack(m: Member)
    requires Writable(m)
    ensures |Back(m)| == 356 && Back(m)[0] == TypeOf(m.body)
    ensures Back(m)[1..101] == TextField(Target(m.body), 100) && Back(m)[189..344] == TextField(PrefixPart(m), 155)
  {
    hide SafeName, Printable, OctalText, NamePart, PrefixPart, TextField;
  }

  /** A path split at a slash is put together again, and the slashes behind it are dropped. */
  lemma NameReads(m: Member)
    requires Writable(m)
    ensures |Header(m)| == BLOCK && MemberName(Header(m)) == m.path
  {
    hide OctalText, Total, Header, Split;
    FieldsStand(m);
    PartsClean(m);
    TextReads(NamePart(m), 100 - |NamePart(m)|);
    TextReads(PrefixPart(m), 155 - |PrefixPart(m)|);
    var full := FullName(Header(m));
    assert full == m.path + Slashes(m.slashes) by {
      if m.cut.Some? {
        assert m.path == m.path[..m.cut.value] + [SLASH] + m.path[m.cut.value + 1..];
      }
    }
    SlashesDrop(m.path, m.slashes);
  }

  lemma PartsClean(m: Member)
    requires Writable(m)
    ensures NoZero(NamePart(m)) && NoZero(PrefixPart(m)) && (m.cut.Some? ==> PrefixPart(m) != [])
  {
    hide Split;
  }

  lemma {:induction false} SlashesDrop(s: seq<Byte>, n: nat)
    requires s != [] && s[|s| - 1] != SLASH
    ensures Stripped(s + Slashes(n)) == s
  {
    if n == 0 {
      assert s + Slashes(0) == s;
    } else {
      var t := s + Slashes(n);
      assert t[..|t| - 1] == s + Slashes(n - 1);
      SlashesDrop(s, n - 1);
    }
  }

  /** A written header reads back: path, mode, size, kind and link text. */
  lemma HeaderReads(m: Member)
    requires Writable(m)
    ensures var h := Header(m);
            && IsHeader(h) && ChecksumOk(h) && MemberName(h) == m.path && PayloadTar.Mode(h) == Some(m.mode)
            && PayloadTar.Size(h) == Some(Size(m.body)) && Type(h) == TypeOf(m.body) && LinkName(h) == Target(m.body)
  {
    hide OctalText, Total, Header, SafeName, Printable, Octal, ChecksumOk, MemberName;
    SumReads(m);
    NameReads(m);
    FieldsStand(m);
    Pow8Small();
    NumberReads(m.mode, 7, [0]);
    NumberReads(Size(m.body), 11, [0]);
    TextReads(Target(m.body), 100 - |Target(m.body)|);
  }

  // ------------------------------------------------------------ Reading an archive back

  /** Where a member is provisioned: its path behind the caller's prefix, with one slash between. */
  function Place(prefix: seq<Byte>, path: seq<Byte>): seq<Byte> {
    if prefix != [] && prefix[|prefix| - 1] == SLASH then prefix + path else prefix + [SLASH] + path
  }

  /** The plan with a member's entry added; refused are too many members, names beyond the space there is, and a hard link
      without an earlier member ending in its text. */
  function Provided(p: Plan, m: Member, at: nat, prefix: seq<Byte>, cap: nat): Option<Plan> {
    var path, permissions, s := Place(prefix, m.path), m.mode % 0x1000, p.stats;
    var used := p.used + |path| + 1;
    if |p.entries| >= MAX_ENTRIES || p.used + |prefix| + |m.path| + 2 > cap then None
    else
      match m.body
      case Regular(bytes, _) =>
        Some(Plan(p.entries + [Entry(path, permissions, File, if bytes == [] then Nothing else Slice(at, |bytes|))], used,
                  s.(files := s.files + 1, bytes := s.bytes + |bytes|)))
      case Folder =>
        Some(Plan(p.entries + [Entry(path, permissions, Directory, Nothing)], used, s.(directories := s.directories + 1)))
      case Soft(target) =>
        if used + |target| + 2 > cap then None
        else Some(Plan(p.entries + [Entry(path, permissions, Symlink, PayloadTar.Target(target))], used + |target| + 2,
                       s.(symlinks := s.symlinks + 1)))
      case Hard(target) =>
        match LinkSource(p.entries, target)
        case None => None
        case Some(i) =>
          var c := p.entries[i].content;
          Some(Plan(p.entries + [Entry(path, permissions, File, c)], used,
                    s.(hardlinks := s.hardlinks + 1, bytes := s.bytes + ContentSize(c))))
  }

  /** The reader takes a written member as that. */
  lemma MemberReads(p: Plan, m: Member, at: nat, prefix: seq<Byte>, cap: nat)
    requires Writable(m)
    ensures var h := Header(m);
            && IsHeader(h) && PayloadTar.Mode(h).Some? && PayloadTar.Size(h).Some?
            && PayloadTar.Member(p, h, at, prefix, cap) == Provided(p, m, at, prefix, cap)
  {
    hide Header, MemberName, LinkName, PayloadTar.Mode, PayloadTar.Size, LinkSource, Split, Traverses, ChecksumOk, NamePart, PrefixPart;
    HeaderReads(m);
    TraversalIsExact(m.path);
    JoinedIs(prefix, m.path);
    JoinedIs([], Target(m.body));
  }

  /** GNU long names and long links. */
  predicate LongName(t: Byte) { t == 'L' as int || t == 'K' as int }

  /** Pax records, volume labels and device nodes. */
  predicate Unneeded(t: Byte) {
    t == 'x' as int || t == 'g' as int || t == 'V' as int || t == '3' as int || t == '4' as int || t == '6' as int
  }

  /** Files, hard links, symbolic links and directories. */
  predicate Wanted(t: Byte) { t == 0 || '0' as int <= t <= '2' as int || t == '5' as int }

  /** Members of the kinds nobody writes here: a long name refuses the archive; an unneeded record leaves no trace, whatever its
      name; another unknown kind leaves no entry. An unsafe name refuses the archive unless the record is unneeded. */
  lemma OtherKinds(p: Plan, h: seq<Byte>, at: nat, prefix: seq<Byte>, cap: nat)
    requires IsHeader(h) && PayloadTar.Mode(h).Some? && PayloadTar.Size(h).Some?
    ensures LongName(Type(h)) ==> PayloadTar.Member(p, h, at, prefix, cap) == None
    ensures Unneeded(Type(h)) ==> PayloadTar.Member(p, h, at, prefix, cap) == Some(p)
    ensures !LongName(Type(h)) && !Unneeded(Type(h)) && !Wanted(Type(h))
            ==> var q := PayloadTar.Member(p, h, at, prefix, cap); q.Some? ==> q.value.entries == p.entries && q.value.stats == p.stats
    ensures !Unneeded(Type(h)) && MemberName(h) != [] && MemberName(h) != [DOT]
            && (Traverses(MemberName(h)) || exists i :: 0 <= i < |MemberName(h)| && !Plainly(MemberName(h)[i]))
            ==> PayloadTar.Member(p, h, at, prefix, cap) == None
  {
    hide MemberName, LinkName, PayloadTar.Mode, PayloadTar.Size, LinkSource, Traverses, ArenaPut, Joined;
    PrintableIs(MemberName(h));
  }

  /** ASCII that shows, or a space, but no backslash. */
  predicate Plainly(b: Byte) { ' ' as int <= b <= '~' as int && b != '\\' as int }

  lemma PrintableIs(s: seq<Byte>)
    ensures Printable(s) <==> forall i :: 0 <= i < |s| ==> Plainly(s[i])
  {
  }

  lemma JoinedIs(prefix: seq<Byte>, name: seq<Byte>)
    ensures Joined(prefix, name) == Place(prefix, name)
  {
    if prefix != [] && prefix[|prefix| - 1] == SLASH {
      assert prefix + [] + name == prefix + name;
    }
  }

  ghost function ProvidedAll(p: Plan, ms: seq<Member>, at: nat, prefix: seq<Byte>, cap: nat): Option<Plan>
    requires AllWritable(ms)
    decreases |ms|
  {
    if ms == [] then Some(p)
    else
      match Provided(p, ms[0], at + BLOCK, prefix, cap)
      case None => None
      case Some(q) => ProvidedAll(q, ms[1..], at + |Written(ms[0])|, prefix, cap)
  }

  /** A written member, standing in an image, is whole, and the next one follows it. */
  lemma WrittenStands(before: seq<Byte>, m: Member, after: seq<Byte>)
    requires Writable(m)
    ensures var image := before + Written(m) + after;
            && |Written(m)| == BLOCK + Rounded(Size(m.body)) && Rounded(Size(m.body)) >= Size(m.body)
            && |before| + BLOCK <= |image| && image[|before|..|before| + BLOCK] == Header(m)
            && Continues(image, |before|) && Whole(image, |before|) && NextMember(image, |before|) == |before| + |Written(m)|
  {
    hide Header, PayloadTar.Mode, PayloadTar.Size, ChecksumOk, SafeName, Printable, NamePart, PrefixPart, MemberName;
    Bounds(m);
    HeaderReads(m);
    RoundedCovers(Size(m.body));
    var image := before + Written(m) + after;
    assert image[|before|..|before| + BLOCK] == Header(m);
    FirstByte(m);
  }

  lemma FirstByte(m: Member)
    requires Writable(m)
    ensures |Header(m)| == BLOCK && !AllZero(Header(m))
  {
    hide Header, Split, OctalText, Total;
    FieldsStand(m);
    PartsClean(m);
    var h := Header(m);
    assert h[0] == h[0..100][0];
    assert NamePart(m)[0] != 0;
  }

  /** From any offset and plan so far the reader goes through the members one after another. */
  lemma {:induction false} ArchiveReads(before: seq<Byte>, ms: seq<Member>, prefix: seq<Byte>, p: Plan)
    requires AllWritable(ms)
    ensures var image := before + Archive(ms);
            PlanFrom(image, |before|, prefix, p) == ProvidedAll(p, ms, |before|, prefix, ArenaCap(image))
    decreases |ms|
  {
    hide Written, Writable, PayloadTar.Member, Provided, Whole, NextMember, AllZero, ArenaCap;
    var image := before + Archive(ms);
    if ms == [] {
      Ends(before);
    } else {
      var m := ms[0];
      AWritable(ms);
      var after := Concat(ms[1..]) + Zeros(2 * BLOCK);
      assert image == before + Written(m) + after;
      WrittenStands(before, m, after);
      MemberReads(p, m, |before| + BLOCK, prefix, ArenaCap(image));
      var q := Provided(p, m, |before| + BLOCK, prefix, ArenaCap(image));
      if q.Some? {
        var next := before + Written(m);
        assert image == next + Archive(ms[1..]);
        ArchiveReads(next, ms[1..], prefix, q.value);
      }
    }
  }

  lemma AWritable(ms: seq<Member>)
    requires AllWritable(ms) && ms != []
    ensures Writable(ms[0]) && AllWritable(ms[1..])
    ensures ms[0].cut.Some? ==> ms[0].cut.value < |ms[0].path|
    ensures |NamePart(ms[0])| <= 100 && |PrefixPart(ms[0])| <= 155 && |Target(ms[0].body)| <= 100
    ensures Concat(ms) == Written(ms[0]) + Concat(ms[1..])
  {
    hide Written, SafeName, Printable;
  }

  lemma Ends(before: seq<Byte>)
    ensures Archive([]) == Zeros(2 * BLOCK) && !Continues(before + Archive([]), |before|)
  {
    var image := before + Zeros(2 * BLOCK);
    assert image[|before|..|before| + BLOCK] == Zeros(BLOCK);
  }

  /** An entry is that of a member: its path below the prefix, its permission bits, and its contents byte for byte. */
  ghost predicate Restores(e: Entry, m: Member, before: seq<Entry>, image: seq<Byte>, prefix: seq<Byte>) {
    && e.path == (if prefix != [] && prefix[|prefix| - 1] == SLASH then prefix + m.path else prefix + [SLASH] + m.path)
    && e.permissions == m.mode % 0x1000
    && match m.body
       case Regular(bytes, _) =>
         && e.kind == File
         && (if bytes == [] then e.content == Nothing
             else e.content.Slice? && e.content.size == |bytes| && e.content.at + |bytes| <= |image|
                  && image[e.content.at..e.content.at + |bytes|] == bytes)
       case Folder => e.kind == Directory && e.content == Nothing
       case Soft(target) => e.kind == Symlink && e.content == PayloadTar.Target(target)
       case Hard(target) =>
         e.kind == File && LinkSource(before, target).Some? && e.content == before[LinkSource(before, target).value].content
  }

  lemma ProvidedRestores(before: seq<Byte>, m: Member, after: seq<Byte>, prefix: seq<Byte>, p: Plan, cap: nat)
    requires Writable(m)
    ensures var q := Provided(p, m, |before| + BLOCK, prefix, cap);
            q.Some? ==> && |q.value.entries| == |p.entries| + 1 && q.value.entries[..|p.entries|] == p.entries
                        && Restores(q.value.entries[|p.entries|], m, p.entries, before + Written(m) + after, prefix)
  {
    hide Header, SafeName, Printable, NamePart, PrefixPart, LinkSource;
    Bounds(m);
    HeaderLength(m);
    if m.body.Regular? {
      var image := before + Written(m) + after;
      var at := |before| + BLOCK;
      assert Written(m)[BLOCK..BLOCK + |m.body.bytes|] == m.body.bytes;
      assert image[at..at + |m.body.bytes|] == Written(m)[BLOCK..BLOCK + |m.body.bytes|];
    }
  }

  lemma HeaderLength(m: Member)
    requires Writable(m)
    ensures |Header(m)| == BLOCK
  {
    hide Header;
    Lengths(m);
  }

  lemma {:induction false} AllRestored(before: seq<Byte>, ms: seq<Member>, prefix: seq<Byte>, p: Plan, cap: nat)
    requires AllWritable(ms)
    ensures var q := ProvidedAll(p, ms, |before|, prefix, cap);
            q.Some? ==> && |q.value.entries| == |p.entries| + |ms| && q.value.entries[..|p.entries|] == p.entries
                        && forall i :: 0 <= i < |ms| ==>
                             var k := |p.entries| + i;
                             Restores(q.value.entries[k], ms[i], q.value.entries[..k], before + Archive(ms), prefix)
    decreases |ms|
  {
    hide Written, Writable, Provided, Restores;
    if ms != [] {
      var m := ms[0];
      AWritable(ms);
      var after := Concat(ms[1..]) + Zeros(2 * BLOCK);
      var image := before + Archive(ms);
      assert image == before + Written(m) + after;
      ProvidedRestores(before, m, after, prefix, p, cap);
      var first := Provided(p, m, |before| + BLOCK, prefix, cap);
      var next := before + Written(m);
      var q := ProvidedAll(p, ms, |before|, prefix, cap);
      if q.Some? {
        AllRestored(next, ms[1..], prefix, first.value, cap);
        assert image == next + Archive(ms[1..]);
        var e, n := q.value.entries, |p.entries|;
        assert e[..n + 1][..n] == e[..n] && e[..n + 1][n] == e[n];
        forall i | 0 <= i < |ms|
          ensures Restores(e[n + i], ms[i], e[..n + i], image, prefix)
        {
          if i > 0 {
            assert ms[1..][i - 1] == ms[i];
          }
        }
      }
    }
  }

  /** Writing an archive and reading it below a prefix gives one entry for each member, in order: exactly its path, permission
      bits, kind and contents. */
  lemma RoundTrip(ms: seq<Member>, prefix: seq<Byte>)
    requires AllWritable(ms)
    ensures var image := Archive(ms);
            var plan := PlanOf(image, prefix);
            && (plan.Some? <==> ms != [] && ProvidedAll(EMPTY, ms, 0, prefix, ArenaCap(image)).Some?)
            && (plan.Some? ==> && |plan.value.entries| == |ms|
                               && forall i :: 0 <= i < |ms| ==> Restores(plan.value.entries[i], ms[i], plan.value.entries[..i], image, prefix))
  {
    hide Written, Writable, Provided, Restores, PlanFrom, ArenaCap, Concat;
    assert [] + Archive(ms) == Archive(ms);
    ArchiveReads([], ms, prefix, EMPTY);
    AllRestored([], ms, prefix, EMPTY, ArenaCap(Archive(ms)));
  }

  // ------------------------------------------------------------ When it is accepted

  /** The name space a member needs. */
  function Needs(m: Member, prefix: seq<Byte>): nat { |prefix| + |m.path| + |Target(m.body)| + 4 }

  /** Up to 1,024 members without hard links, none of which needs more name space than a header is counted for. */
  ghost predicate Modest(ms: seq<Member>, prefix: seq<Byte>) {
    forall i :: 0 <= i < |ms| ==> !ms[i].body.Hard? && Needs(ms[i], prefix) <= 300
  }

  lemma {:induction false} ModestFits(ms: seq<Member>, at: nat, prefix: seq<Byte>, p: Plan, cap: nat)
    requires AllWritable(ms) && Modest(ms, prefix) && |p.entries| + |ms| <= MAX_ENTRIES && p.used + 300 * |ms| <= cap
    ensures ProvidedAll(p, ms, at, prefix, cap).Some?
    decreases |ms|
  {
    hide Written, Writable;
    if ms != [] {
      AWritable(ms);
      var q := Provided(p, ms[0], at + BLOCK, prefix, cap);
      assert Needs(ms[0], prefix) <= 300;
      ModestFits(ms[1..], at + |Written(ms[0])|, prefix, q.value, cap);
    }
  }

  lemma {:induction false} ConcatLong(ms: seq<Member>)
    requires AllWritable(ms)
    ensures |Concat(ms)| >= BLOCK * |ms|
    decreases |ms|
  {
    hide Written, Writable;
    if ms != [] {
      AWritable(ms);
      WrittenStands([], ms[0], []);
      ConcatLong(ms[1..]);
    }
  }

  /** Every such archive is accepted. */
  lemma ModestAccepted(ms: seq<Member>, prefix: seq<Byte>)
    requires AllWritable(ms) && Modest(ms, prefix) && 0 < |ms| <= MAX_ENTRIES
    ensures PlanOf(Archive(ms), prefix).Some?
  {
    hide Written, Writable, Modest, PlanFrom, Concat;
    RoundTrip(ms, prefix);
    ConcatLong(ms);
    ModestFits(ms, 0, prefix, EMPTY, ArenaCap(Archive(ms)));
  }

  /** The name space is reckoned from the archive alone: below a long enough prefix even a single empty member is refused. */
  lemma LongPrefixRefused(m: Member, prefix: seq<Byte>)
    requires Writable(m) && Size(m.body) == 0 && |prefix| + |m.path| + 2 > 4996
    ensures AllWritable([m]) && PlanOf(Archive([m]), prefix) == None
  {
    hide *;
    OneSize(m);
    RoundTrip([m], prefix);
    OneRefused(m, prefix, ArenaCap(Archive([m])));
  }

  lemma OneSize(m: Member)
    requires Writable(m) && Size(m.body) == 0
    ensures AllWritable([m]) && ArenaCap(Archive([m])) == 4996
  {
    hide Writable, Written;
    WrittenStands([], m, []);
    AWritable([m]);
    assert [m][1..] == [] && Concat([]) == [];
    assert Rounded(0) == 0;
    assert |Archive([m])| == 3 * BLOCK;
  }

  lemma OneRefused(m: Member, prefix: seq<Byte>, cap: nat)
    requires Writable(m) && |prefix| + |m.path| + 2 > cap
    ensures AllWritable([m]) && ProvidedAll(EMPTY, [m], 0, prefix, cap) == None
  {
    hide Writable, Written;
    AWritable([m]);
  }
}
