/** The kernel compatibility gate: loaded bytes bound to the measured file, then one patch transaction that cannot fail. */
module KernelGate {
  import opened Words
  import opened GuestPatch
  import Sha256

  const FILE_SIZE: nat := 7942144
  const VIRT_BASE: Word := 0xc000_0000
  const RAM_BASE: nat := 0x0800_0000
  const MIN_RAM_SIZE: nat := 0x7d_1000
  const UIOMOVE_VA: Word := 0xc012_8d14

  /** A patch site with its bytes padded to the fixed width of an entry. */
  function Site(va: Word, expected: seq<Byte>, replacement: seq<Byte>): Entry
    requires |expected| == |replacement| <= MAX_BYTES
  {
    Entry(va, |expected|, expected + seq(MAX_BYTES - |expected|, i => 0), replacement + seq(MAX_BYTES - |replacement|, i => 0))
  }

  /** The five sites, in order: IORTC, BSD root, memory-device read and write, raw watcher. */
  function Sites(): seq<Entry> {
    [Site(0xc017_5b3e, [0x1e, 0x23], [0x00, 0x23]),
     Site(0xc01a_1b5a, [0x00, 0x23], [0x01, 0x23]),
     Site(0xc007_4140, [0xef, 0xf7, 0x12, 0xf9], [0xe1, 0xdf, 0xc0, 0x46]),
     Site(0xc007_41e6, [0xef, 0xf7, 0xbf, 0xf8], [0xe2, 0xdf, 0xc0, 0x46]),
     Site(0xc007_3f94, [0xf0, 0xb5, 0x46, 0x46], [0xe3, 0xdf, 0xe4, 0xdf])]
  }

  const PROLOGUE: seq<Byte> := [0xf0, 0xb5, 0x5e, 0x46]

  datatype Segment = Segment(va: Word, vmSize: nat, fileOffset: nat, fileSize: nat)

  function Segments(): seq<Segment> {
    [Segment(0xc000_8000, 0x20_5000, 0, 0x20_5000),
     Segment(0xc020_d000, 0x5_3000, 0x20_5000, 0x1_8000),
     Segment(0xc000_0000, 0x5000, 0x21_d000, 0x5000),
     Segment(0xc026_0000, 0x1000, 0x22_2000, 0x1000),
     Segment(0xc026_1000, 0, 0x22_3000, 0),
     Segment(0xc02c_d000, 0x4c_8000, 0x28_f000, 0x4c_8000),
     Segment(0xc026_1000, 0, 0x22_3000, 0),
     Segment(0xc079_5000, 0x3_c000, 0x75_7000, 0x3_c000),
     Segment(0xc026_1000, 0x6_b5a4, 0x22_3000, 0x6_b5a4)]
  }

  function SegmentAt(s: Segment): int { s.va as int - VIRT_BASE }

  /** Every segment lies inside the file and inside the smallest RAM the gate accepts. */
  predicate Placed(s: Segment) {
    0 <= SegmentAt(s) && SegmentAt(s) + s.vmSize <= MIN_RAM_SIZE && s.fileOffset + s.fileSize <= FILE_SIZE && s.fileSize <= s.vmSize
  }

  lemma SegmentsPlaced(i: nat)
    requires i < |Segments()|
    ensures Placed(Segments()[i])
  {
  }

  /** What the loader puts at byte `k` of a segment: the file's byte, or zero behind them. */
  function LoadedByte(file: seq<bv8>, s: Segment, k: nat): Byte
    requires |file| == FILE_SIZE && Placed(s)
  {
    if k < s.fileSize then file[s.fileOffset + k] as int else 0
  }

  /** A segment in RAM is what the loader put there. */
  ghost predicate Loaded(file: seq<bv8>, ram: seq<Byte>, s: Segment)
    requires |file| == FILE_SIZE && Placed(s) && |ram| >= MIN_RAM_SIZE
  {
    forall k: nat :: k < s.vmSize ==> ram[SegmentAt(s) + k] == LoadedByte(file, s, k)
  }

  ghost predicate AllLoaded(file: seq<bv8>, ram: seq<Byte>)
    requires |file| == FILE_SIZE && |ram| >= MIN_RAM_SIZE
  {
    forall i :: 0 <= i < |Segments()| ==> Placed(Segments()[i]) && Loaded(file, ram, Segments()[i])
  }

  ghost predicate PrologueHolds(ram: seq<Byte>)
    requires |ram| >= MIN_RAM_SIZE
  {
    forall k :: 0 <= k < 4 ==> ram[UIOMOVE_VA - VIRT_BASE + k] == PROLOGUE[k]
  }

  ghost predicate SitesHold(ram: seq<Byte>) {
    forall i :: 0 <= i < |Sites()| ==> Holds(ram, Sites()[i], VIRT_BASE, Sites()[i].expected)
  }

  /** The site table is a well-formed manifest whatever RAM the gate accepts. */
  lemma SitesPlanned(size: nat)
    requires MIN_RAM_SIZE <= size <= SPACE - RAM_BASE
    ensures AllSized(Sites()) && Planned(Sites(), size, RAM_BASE, VIRT_BASE) && Separate(Sites()) && |Sites()| == 5
    ensures GeometryOk(size, RAM_BASE)
  {
    hide EntryOk;
    forall i | 0 <= i < 5
      ensures Sized(Sites()[i]) && EntryOk(Sites()[i], size, RAM_BASE, VIRT_BASE)
    {
      SiteOk(i, size);
    }
  }

  lemma SiteOk(i: nat, size: nat)
    requires i < 5 && MIN_RAM_SIZE <= size
    ensures Sized(Sites()[i]) && EntryOk(Sites()[i], size, RAM_BASE, VIRT_BASE)
  {
    var e := Sites()[i];
    assert e.expected[0] != e.replacement[0];
  }

  // ------------------------------------------------------------ The gate

  datatype Outcome =
    | Passed | FileSizeMismatch | VirtBaseMismatch | RamBaseMismatch | InvalidRamGeometry | RamTooSmall
    | UiomoveMismatch(byte: nat) | SiteMismatch(site: nat, byte: nat) | SegmentMismatch(segment: nat, byte: nat)
    | DigestMismatch | TransactionFailed(status: Status)

  method CheckPrologue(ram: array<Byte>) returns (bad: Option<nat>)
    requires ram.Length >= MIN_RAM_SIZE
    ensures bad.None? <==> PrologueHolds(ram[..])
    ensures bad.Some? ==> bad.value < 4 && ram[UIOMOVE_VA - VIRT_BASE + bad.value] != PROLOGUE[bad.value]
  {
    for k := 0 to 4
      invariant forall j :: 0 <= j < k ==> ram[UIOMOVE_VA - VIRT_BASE + j] == PROLOGUE[j]
    {
      if ram[UIOMOVE_VA - VIRT_BASE + k] != PROLOGUE[k] {
        return Some(k);
      }
    }
    return None;
  }

  method CheckSegment(file: seq<bv8>, ram: array<Byte>, s: Segment) returns (bad: Option<nat>)
    requires |file| == FILE_SIZE && Placed(s) && ram.Length >= MIN_RAM_SIZE
    ensures bad.None? <==> Loaded(file, ram[..], s)
    ensures bad.Some? ==> bad.value < s.vmSize && ram[SegmentAt(s) + bad.value] != LoadedByte(file, s, bad.value)
  {
    var k: nat := 0;
    while k < s.vmSize
      invariant k <= s.vmSize && forall j: nat :: j < k ==> ram[SegmentAt(s) + j] == LoadedByte(file, s, j)
    {
      if ram[SegmentAt(s) + k] != LoadedByte(file, s, k) {
        return Some(k);
      }
      k := k + 1;
    }
    return None;
  }

  method CheckSegments(file: seq<bv8>, ram: array<Byte>) returns (bad: Option<(nat, nat)>)
    requires |file| == FILE_SIZE && ram.Length >= MIN_RAM_SIZE
    ensures bad.None? <==> AllLoaded(file, ram[..])
    ensures bad.Some? ==> var (i, k) := bad.value;
                          i < |Segments()| && Placed(Segments()[i]) && k < Segments()[i].vmSize
                          && ram[SegmentAt(Segments()[i]) + k] != LoadedByte(file, Segments()[i], k)
  {
    hide Loaded, Segments, Placed;
    var i: nat := 0;
    while i < |Segments()|
      invariant i <= |Segments()|
      invariant forall j: nat :: j < i ==> Placed(Segments()[j]) && Loaded(file, ram[..], Segments()[j])
    {
      SegmentsPlaced(i);
      var byte := CheckSegment(file, ram, Segments()[i]);
      if byte.Some? {
        return Some((i, byte.value));
      }
      i := i + 1;
    }
    return None;
  }

  /** Everything the gate asks of the file and of RAM. */
  ghost predicate Acceptable(file: seq<bv8>, ram: seq<Byte>, virtBase: Word, ramBase: nat, digest: seq<bv8>) {
    && |file| == FILE_SIZE && virtBase == VIRT_BASE && ramBase == RAM_BASE
    && MIN_RAM_SIZE <= |ram| <= SPACE - RAM_BASE
    && PrologueHolds(ram) && SitesHold(ram) && AllLoaded(file, ram)
    && Sha256.Digest(file) == digest
  }

  /** Bytes of RAM from `at` on that are the file's from `from` on. */
  ghost predicate Copied(file: seq<bv8>, ram: seq<Byte>, at: int, from: int, n: nat)
    requires 0 <= at && at + n <= |ram| && 0 <= from && from + n <= |file|
  {
    forall k :: at <= k < at + n ==> ram[k] == file[k - at + from] as int
  }

  /** A loaded segment is its part of the file, byte for byte, and zeros behind it. */
  lemma LoadedIsFile(file: seq<bv8>, ram: seq<Byte>, s: Segment)
    requires |file| == FILE_SIZE && Placed(s) && |ram| >= MIN_RAM_SIZE
    ensures var at: int := s.va as int - 0xc000_0000;
            && 0 <= at && at + s.vmSize <= |ram| && s.fileOffset + s.fileSize <= |file|
            && (Loaded(file, ram, s) <==> Copied(file, ram, at, s.fileOffset, s.fileSize)
                                          && (forall k :: at + s.fileSize <= k < at + s.vmSize ==> ram[k] == 0))
  {
    hide Loaded, Copied, LoadedByte;
    var at := SegmentAt(s);
    if Loaded(file, ram, s) {
      LoadedCopies(file, ram, s);
    }
    if Copied(file, ram, at, s.fileOffset, s.fileSize) && (forall k :: at + s.fileSize <= k < at + s.vmSize ==> ram[k] == 0) {
      CopiedLoads(file, ram, s);
    }
  }

  lemma LoadedCopies(file: seq<bv8>, ram: seq<Byte>, s: Segment)
    requires |file| == FILE_SIZE && Placed(s) && |ram| >= MIN_RAM_SIZE && Loaded(file, ram, s)
    ensures Copied(file, ram, SegmentAt(s), s.fileOffset, s.fileSize)
    ensures forall k :: SegmentAt(s) + s.fileSize <= k < SegmentAt(s) + s.vmSize ==> ram[k] == 0
  {
    hide LoadedByte, Loaded;
    var at := SegmentAt(s);
    forall k | at <= k < at + s.vmSize
      ensures ram[k] == if k < at + s.fileSize then file[k - at + s.fileOffset] as int else 0
    {
      LoadedAt(file, ram, s, k - at);
    }
  }

  lemma LoadedAt(file: seq<bv8>, ram: seq<Byte>, s: Segment, k: nat)
    requires |file| == FILE_SIZE && Placed(s) && |ram| >= MIN_RAM_SIZE && Loaded(file, ram, s) && k < s.vmSize
    ensures ram[SegmentAt(s) + k] == if k < s.fileSize then file[k + s.fileOffset] as int else 0
  {
    assert ram[SegmentAt(s) + k] == LoadedByte(file, s, k);
  }

  lemma CopiedLoads(file: seq<bv8>, ram: seq<Byte>, s: Segment)
    requires |file| == FILE_SIZE && Placed(s) && |ram| >= MIN_RAM_SIZE
    requires Copied(file, ram, SegmentAt(s), s.fileOffset, s.fileSize)
    requires forall k :: SegmentAt(s) + s.fileSize <= k < SegmentAt(s) + s.vmSize ==> ram[k] == 0
    ensures Loaded(file, ram, s)
  {
    var at := SegmentAt(s);
    forall k: nat | k < s.vmSize
      ensures ram[at + k] == LoadedByte(file, s, k)
    {
      if k < s.fileSize {
        assert ram[at + k] == file[at + k - at + s.fileOffset] as int;
      }
    }
  }

  /** RAM after the gate: each segment as loaded, but for the bytes inside the five sites, which hold the replacements. */
  ghost predicate LoadedButSites(file: seq<bv8>, ram: seq<Byte>)
    requires |file| == FILE_SIZE && |ram| >= MIN_RAM_SIZE
  {
    && (forall i, k: nat :: 0 <= i < |Segments()| && Placed(Segments()[i]) && k < Segments()[i].vmSize
          && Uncovered(Sites(), VIRT_BASE, SegmentAt(Segments()[i]) + k)
          ==> ram[SegmentAt(Segments()[i]) + k] == LoadedByte(file, Segments()[i], k))
    && (forall i :: 0 <= i < |Sites()| ==> Holds(ram, Sites()[i], VIRT_BASE, Sites()[i].replacement))
  }

  lemma PatchedIsLoadedButSites(file: seq<bv8>, before: seq<Byte>, after: seq<Byte>)
    requires |file| == FILE_SIZE && |before| >= MIN_RAM_SIZE && AllLoaded(file, before) && IsPatched(before, after, Sites(), VIRT_BASE)
    ensures LoadedButSites(file, after)
  {
    hide Segments, Sites, Holds, Uncovered;
    forall i, k: nat | 0 <= i < |Segments()| && Placed(Segments()[i]) && k < Segments()[i].vmSize
                       && Uncovered(Sites(), VIRT_BASE, SegmentAt(Segments()[i]) + k)
      ensures after[SegmentAt(Segments()[i]) + k] == LoadedByte(file, Segments()[i], k)
    {
      InRam(Segments()[i], k);
      assert Loaded(file, before, Segments()[i]);
    }
  }

  lemma InRam(s: Segment, k: nat)
    requires Placed(s) && k < s.vmSize
    ensures 0 <= SegmentAt(s) + k < MIN_RAM_SIZE
  {
  }

  /** Does a refusal say what is wrong, and is everything asked for before it as it should be? */
  ghost predicate Explains(outcome: Outcome, file: seq<bv8>, ram: seq<Byte>, virtBase: Word, ramBase: nat, digest: seq<bv8>) {
    var sized := |file| == FILE_SIZE;
    var based := sized && virtBase == 0xc000_0000 && ramBase == 0x0800_0000;
    var roomy := based && MIN_RAM_SIZE <= |ram| <= 0x1_0000_0000 - 0x0800_0000;
    match outcome
    case Passed => roomy && PrologueHolds(ram) && SitesHold(ram) && AllLoaded(file, ram) && Sha256.Digest(file) == digest
    case FileSizeMismatch => !sized
    case VirtBaseMismatch => sized && virtBase != 0xc000_0000
    case RamBaseMismatch => sized && virtBase == 0xc000_0000 && ramBase != 0x0800_0000
    case InvalidRamGeometry => based && !(0 < |ram| <= 0x1_0000_0000 - 0x0800_0000)
    case RamTooSmall => based && 0 < |ram| < MIN_RAM_SIZE
    case UiomoveMismatch(k) => roomy && k < 4 && ram[UIOMOVE_VA - VIRT_BASE + k] != PROLOGUE[k]
    case SiteMismatch(i, k) => && roomy && PrologueHolds(ram) && i < |Sites()| && k < Sites()[i].length <= MAX_BYTES
                               && 0 <= Offset(Sites()[i], VIRT_BASE) + k < |ram|
                               && ram[Offset(Sites()[i], VIRT_BASE) + k] != Sites()[i].expected[k]
    case SegmentMismatch(i, k) => && roomy && PrologueHolds(ram) && SitesHold(ram) && i < |Segments()| && Placed(Segments()[i])
                                  && k < Segments()[i].vmSize && ram[SegmentAt(Segments()[i]) + k] != LoadedByte(file, Segments()[i], k)
    case DigestMismatch => roomy && PrologueHolds(ram) && SitesHold(ram) && AllLoaded(file, ram) && Sha256.Digest(file) != digest
    case TransactionFailed(_) => false
  }

  /** The gate from its geometry checks to the transaction. It passes exactly when everything it asks holds; once the checks
      have passed the patch transaction cannot fail; anything else leaves RAM as it was. */
  method Apply(file: seq<bv8>, ram: array<Byte>, virtBase: Word, ramBase: nat, digest: seq<bv8>) returns (outcome: Outcome)
    modifies ram
    ensures outcome == Passed <==> Acceptable(file, old(ram[..]), virtBase, ramBase, digest)
    ensures Explains(outcome, file, old(ram[..]), virtBase, ramBase, digest)
    ensures outcome != Passed ==> ram[..] == old(ram[..])
    ensures outcome == Passed ==> IsPatched(old(ram[..]), ram[..], Sites(), VIRT_BASE) && LoadedButSites(file, ram[..])
  {
    hide PrologueHolds, Holds, AllLoaded, Sites, Sha256.Digest, LoadedButSites, Separate, EntryOk, IsPatched;
    if |file| != FILE_SIZE {
      return FileSizeMismatch;
    }
    if virtBase != VIRT_BASE {
      return VirtBaseMismatch;
    }
    if ramBase != RAM_BASE {
      return RamBaseMismatch;
    }
    if ram.Length == 0 || ram.Length > 0xffff_ffff || ram.Length > SPACE - ramBase {
      return InvalidRamGeometry;
    }
    if ram.Length < MIN_RAM_SIZE {
      return RamTooSmall;
    }
    var byte := CheckPrologue(ram);
    if byte.Some? {
      return UiomoveMismatch(byte.value);
    }
    SitesPlanned(ram.Length);
    var site := Compare(ram, Sites(), ramBase, virtBase);
    if site.Some? {
      OkBounds(Sites()[site.value.0], ram.Length, ramBase, virtBase);
      return SiteMismatch(site.value.0, site.value.1);
    }
    var segment := CheckSegments(file, ram);
    if segment.Some? {
      return SegmentMismatch(segment.value.0, segment.value.1);
    }
    var measured := Sha256.Hash(file);
    if measured != Some(digest) {
      return DigestMismatch;
    }
    ghost var before := ram[..];
    var report := GuestPatch.Apply(ram, ramBase, virtBase, Sites(), (k, b) => b);
    assert report.status == OK;
    if report.status != OK {
      return TransactionFailed(report.status);
    }
    PatchedIsLoadedButSites(file, before, ram[..]);
    return Passed;
  }
}
