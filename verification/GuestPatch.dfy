/** Atomic patching of guest RAM. */
module GuestPatch {
  import opened Words

  const SPACE: nat := 0x1_0000_0000
  const MAX_ENTRIES: nat := 64
  const MAX_BYTES: nat := 8

  datatype Entry = Entry(va: Word, length: Word, expected: seq<Byte>, replacement: seq<Byte>)

  /** An entry's two byte arrays have their fixed size. */
  predicate Sized(e: Entry) { |e.expected| == MAX_BYTES && |e.replacement| == MAX_BYTES }

  datatype Status =
    | OK | InvalidGeometry | InvalidCount | InvalidLength | NoChange | VaBelowBase | VaOverflow | PaOverflow | OutOfRam
    | Overlapping | ExpectedMismatch | VerifyMismatch

  /** Where a call failed first; zero indices when the failure is not about an entry. */
  datatype Report = Report(status: Status, entry: nat, byte: nat)

  // ------------------------------------------------------------ What a manifest asks for

  predicate GeometryOk(size: nat, base: nat) { size != 0 && base < SPACE && size <= SPACE - base }

  /** Offset of an entry in RAM. */
  function Offset(e: Entry, virtBase: Word): int { e.va as int - virtBase }

  predicate Changes(e: Entry)
    requires Sized(e) && e.length <= MAX_BYTES
  {
    exists k :: 0 <= k < e.length && e.expected[k] != e.replacement[k]
  }

  /** The checks on one entry, as one condition. */
  predicate EntryOk(e: Entry, size: nat, base: nat, virtBase: Word)
    requires Sized(e)
  {
    && 0 < e.length <= MAX_BYTES
    && virtBase <= e.va && e.va + e.length <= SPACE
    && Offset(e, virtBase) + e.length <= size
    && Changes(e)
  }

  predicate VaOverlap(a: Entry, b: Entry) { a.va < b.va + b.length && b.va < a.va + a.length }

  predicate Separate(entries: seq<Entry>) {
    forall i, j :: 0 <= j < i < |entries| ==> !VaOverlap(entries[i], entries[j])
  }

  ghost predicate AllSized(entries: seq<Entry>) { forall i :: 0 <= i < |entries| ==> Sized(entries[i]) }

  ghost predicate Planned(entries: seq<Entry>, size: nat, base: nat, virtBase: Word)
    requires AllSized(entries)
  {
    forall i :: 0 <= i < |entries| ==> EntryOk(entries[i], size, base, virtBase)
  }

  /** RAM holds the bytes an entry expects. */
  predicate Holds(ram: seq<Byte>, e: Entry, virtBase: Word, bytes: seq<Byte>) {
    && |bytes| == MAX_BYTES && e.length <= MAX_BYTES && 0 <= Offset(e, virtBase) && Offset(e, virtBase) + e.length <= |ram|
    && forall k :: 0 <= k < e.length ==> ram[Offset(e, virtBase) + k] == bytes[k]
  }

  predicate Covers(e: Entry, virtBase: Word, k: int) { Offset(e, virtBase) <= k < Offset(e, virtBase) + e.length }

  predicate Uncovered(entries: seq<Entry>, virtBase: Word, k: int) {
    forall i :: 0 <= i < |entries| ==> !Covers(entries[i], virtBase, k)
  }

  /** Every replacement is in place and nothing else has changed. */
  ghost predicate IsPatched(before: seq<Byte>, after: seq<Byte>, entries: seq<Entry>, virtBase: Word) {
    && |after| == |before|
    && (forall i :: 0 <= i < |entries| ==> Holds(after, entries[i], virtBase, entries[i].replacement))
    && (forall k :: 0 <= k < |before| && Uncovered(entries, virtBase, k) ==> after[k] == before[k])
  }

  /** A manifest that may be applied: geometry, count, every entry, no two overlapping, and every expected byte in place. */
  ghost predicate Applicable(entries: seq<Entry>, ram: seq<Byte>, base: nat, virtBase: Word)
    requires AllSized(entries)
  {
    && GeometryOk(|ram|, base)
    && 0 < |entries| <= MAX_ENTRIES
    && Planned(entries, |ram|, base, virtBase)
    && Separate(entries)
    && forall i :: 0 <= i < |entries| ==> Holds(ram, entries[i], virtBase, entries[i].expected)
  }

  /** Two entries overlap in virtual addresses exactly if they share a byte of RAM. */
  lemma OverlapIsShared(a: Entry, b: Entry, virtBase: Word)
    requires a.length > 0 && b.length > 0
    ensures VaOverlap(a, b) <==> exists k :: Covers(a, virtBase, k) && Covers(b, virtBase, k)
  {
    if VaOverlap(a, b) {
      var k := if a.va < b.va then Offset(b, virtBase) else Offset(a, virtBase);
      assert Covers(a, virtBase, k) && Covers(b, virtBase, k);
    }
  }

  /** Patched RAM is determined by the RAM before. */
  lemma PatchedUnique(before: seq<Byte>, x: seq<Byte>, y: seq<Byte>, entries: seq<Entry>, virtBase: Word)
    requires IsPatched(before, x, entries, virtBase) && IsPatched(before, y, entries, virtBase)
    ensures x == y
  {
    forall k | 0 <= k < |before|
      ensures x[k] == y[k]
    {
      if !Uncovered(entries, virtBase, k) {
        var i :| 0 <= i < |entries| && Covers(entries[i], virtBase, k);
        var j := k - Offset(entries[i], virtBase);
        assert x[Offset(entries[i], virtBase) + j] == entries[i].replacement[j];
        assert y[Offset(entries[i], virtBase) + j] == entries[i].replacement[j];
      }
    }
  }

  // ------------------------------------------------------------ The operation

  method EntryChangesBytes(e: Entry) returns (changes: bool)
    requires Sized(e) && e.length <= MAX_BYTES
    ensures changes <==> Changes(e)
  {
    for k := 0 to e.length
      invariant forall j :: 0 <= j < k ==> e.expected[j] == e.replacement[j]
    {
      if e.expected[k] != e.replacement[k] {
        return true;
      }
    }
    return false;
  }

  /** Validates one entry in the order of the checks. */
  /** Is the status a complaint about one entry? */
  predicate AboutEntry(s: Status) {
    s == InvalidLength || s == VaBelowBase || s == VaOverflow || s == PaOverflow || s == OutOfRam || s == NoChange
  }

  /** Does an entry deserve a complaint: everything asked for before it is fine, and this is not? */
  ghost predicate Deserves(e: Entry, size: nat, base: nat, virtBase: Word, s: Status)
    requires Sized(e)
  {
    var start: int := base + e.va - virtBase;
    match s
    case InvalidLength => !(1 <= e.length <= 8)
    case VaBelowBase => 1 <= e.length <= 8 && e.va < virtBase
    case VaOverflow => 1 <= e.length <= 8 && e.va >= virtBase && e.va + e.length > 0x1_0000_0000
    case PaOverflow => 1 <= e.length <= 8 && e.va >= virtBase && e.va + e.length <= 0x1_0000_0000 < start + e.length
    case OutOfRam => 1 <= e.length <= 8 && e.va >= virtBase && e.va + e.length <= 0x1_0000_0000
                     && base + size < start + e.length <= 0x1_0000_0000
    case NoChange => 1 <= e.length <= 8 && e.va >= virtBase && e.va + e.length <= 0x1_0000_0000 && start + e.length <= base + size
                     && forall k :: 0 <= k < e.length ==> e.expected[k] == e.replacement[k]
    case _ => false
  }

  method CheckEntry(e: Entry, size: nat, base: nat, virtBase: Word) returns (status: Status)
    requires Sized(e) && GeometryOk(size, base)
    ensures status == OK <==> EntryOk(e, size, base, virtBase)
    ensures status != OK ==> AboutEntry(status) && Deserves(e, size, base, virtBase, status)
  {
    if e.length == 0 || e.length > MAX_BYTES {
      return InvalidLength;
    }
    if e.va < virtBase {
      return VaBelowBase;
    }
    if e.va + e.length > SPACE {
      return VaOverflow;
    }
    var pa := base + (e.va - virtBase);
    if pa >= SPACE || pa + e.length > SPACE {
      return PaOverflow;
    }
    if pa + e.length > base + size {
      return OutOfRam;
    }
    var changes := EntryChangesBytes(e);
    return if changes then OK else NoChange;
  }

  /** How later loads see memory: ordinary memory gives back what was stored. */
  ghost predicate Ordinary(readback: (nat, Byte) -> Byte) {
    forall k: nat, b: Byte :: readback(k, b) == b
  }

  /** Copies `bytes` of entry `i` over its place. */
  method StoreEntry(ram: array<Byte>, e: Entry, virtBase: Word, bytes: seq<Byte>)
    requires e.length <= MAX_BYTES == |bytes| && 0 <= Offset(e, virtBase) && Offset(e, virtBase) + e.length <= ram.Length
    modifies ram
    ensures Holds(ram[..], e, virtBase, bytes)
    ensures forall k :: 0 <= k < ram.Length && !Covers(e, virtBase, k) ==> ram[k] == old(ram[k])
  {
    for k := 0 to e.length
      invariant forall j :: 0 <= j < k ==> ram[Offset(e, virtBase) + j] == bytes[j]
      invariant forall j :: 0 <= j < ram.Length && !Covers(e, virtBase, j) ==> ram[j] == old(ram[j])
    {
      ram[Offset(e, virtBase) + k] := bytes[k];
    }
  }

  /** Every replacement, entry after entry. */
  method StoreAll(ram: array<Byte>, entries: seq<Entry>, base: nat, virtBase: Word)
    requires AllSized(entries) && Planned(entries, ram.Length, base, virtBase) && Separate(entries)
    modifies ram
    ensures IsPatched(old(ram[..]), ram[..], entries, virtBase)
  {
    for i := 0 to |entries|
      invariant forall j :: 0 <= j < i ==> Holds(ram[..], entries[j], virtBase, entries[j].replacement)
      invariant forall k :: 0 <= k < ram.Length && Uncovered(entries, virtBase, k) ==> ram[k] == old(ram[k])
    {
      assert EntryOk(entries[i], ram.Length, base, virtBase);
      ghost var before := ram[..];
      StoreEntry(ram, entries[i], virtBase, entries[i].replacement);
      forall j | 0 <= j < i
        ensures Holds(ram[..], entries[j], virtBase, entries[j].replacement)
      {
        StillHolds(before, ram[..], entries[i], entries[j], virtBase, entries[j].replacement);
      }
      assert forall k :: 0 <= k < ram.Length && Uncovered(entries, virtBase, k) ==> !Covers(entries[i], virtBase, k);
    }
  }

  lemma StillHolds(before: seq<Byte>, after: seq<Byte>, stored: Entry, e: Entry, virtBase: Word, bytes: seq<Byte>)
    requires Holds(before, e, virtBase, bytes) && !VaOverlap(stored, e) && |after| == |before|
    requires forall k :: 0 <= k < |before| && !Covers(stored, virtBase, k) ==> after[k] == before[k]
    ensures Holds(after, e, virtBase, bytes)
  {
    hide VaOverlap;
    if e.length > 0 && stored.length > 0 {
      OverlapIsShared(stored, e, virtBase);
    }
    forall k | 0 <= k < e.length
      ensures after[Offset(e, virtBase) + k] == bytes[k]
    {
      assert Covers(e, virtBase, Offset(e, virtBase) + k);
      assert !Covers(stored, virtBase, Offset(e, virtBase) + k);
    }
  }

  lemma NotCovered(entries: seq<Entry>, virtBase: Word, k: int, i: nat)
    requires Uncovered(entries, virtBase, k) && i < |entries|
    ensures !Covers(entries[i], virtBase, k)
  {
  }

  lemma PatchedElsewhere(before: seq<Byte>, after: seq<Byte>, entries: seq<Entry>, virtBase: Word)
    requires IsPatched(before, after, entries, virtBase)
    ensures |after| == |before| && forall k :: 0 <= k < |before| && Uncovered(entries, virtBase, k) ==> after[k] == before[k]
  {
  }

  /** Puts the expected bytes of every entry back. */
  method Rollback(ram: array<Byte>, entries: seq<Entry>, base: nat, virtBase: Word, ghost original: seq<Byte>)
    requires AllSized(entries) && Planned(entries, ram.Length, base, virtBase) && Separate(entries)
    requires IsPatched(original, ram[..], entries, virtBase)
    requires forall i :: 0 <= i < |entries| ==> Holds(original, entries[i], virtBase, entries[i].expected)
    modifies ram
    ensures ram[..] == original
  {
    hide Holds, VaOverlap, EntryOk, IsPatched, Uncovered, Covers;
    PatchedElsewhere(original, ram[..], entries, virtBase);
    for i := 0 to |entries|
      invariant forall j :: 0 <= j < i ==> Holds(ram[..], entries[j], virtBase, entries[j].expected)
      invariant forall k :: 0 <= k < ram.Length && Uncovered(entries, virtBase, k) ==> ram[k] == original[k]
    {
      OkBounds(entries[i], ram.Length, base, virtBase);
      ghost var before := ram[..];
      StoreEntry(ram, entries[i], virtBase, entries[i].expected);
      forall j | 0 <= j < i
        ensures Holds(ram[..], entries[j], virtBase, entries[j].expected)
      {
        StillHolds(before, ram[..], entries[i], entries[j], virtBase, entries[j].expected);
      }
      forall k | 0 <= k < ram.Length && Uncovered(entries, virtBase, k)
        ensures !Covers(entries[i], virtBase, k)
      {
        NotCovered(entries, virtBase, k, i);
      }
    }
    Restored(original, ram[..], entries, virtBase);
  }

  /** Expected bytes back everywhere and everything else untouched: the original RAM. */
  lemma Restored(original: seq<Byte>, now: seq<Byte>, entries: seq<Entry>, virtBase: Word)
    requires |now| == |original|
    requires forall i :: 0 <= i < |entries| ==> Holds(original, entries[i], virtBase, entries[i].expected)
    requires forall i :: 0 <= i < |entries| ==> Holds(now, entries[i], virtBase, entries[i].expected)
    requires forall k :: 0 <= k < |original| && Uncovered(entries, virtBase, k) ==> now[k] == original[k]
    ensures now == original
  {
    forall k | 0 <= k < |original|
      ensures now[k] == original[k]
    {
      if !Uncovered(entries, virtBase, k) {
        var i :| 0 <= i < |entries| && Covers(entries[i], virtBase, k);
        var j := k - Offset(entries[i], virtBase);
        assert now[Offset(entries[i], virtBase) + j] == entries[i].expected[j];
        assert original[Offset(entries[i], virtBase) + j] == entries[i].expected[j];
      }
    }
  }

  /** The first expected byte that is not in RAM. */
  method Compare(ram: array<Byte>, entries: seq<Entry>, base: nat, virtBase: Word) returns (bad: Option<(nat, nat)>)
    requires AllSized(entries) && Planned(entries, ram.Length, base, virtBase)
    ensures bad.None? <==> forall i :: 0 <= i < |entries| ==> Holds(ram[..], entries[i], virtBase, entries[i].expected)
    ensures bad.Some? ==> var (i, k) := bad.value;
                          && i < |entries| && k < entries[i].length
                          && ram[Offset(entries[i], virtBase) + k] != entries[i].expected[k]
                          && (forall j :: 0 <= j < i ==> Holds(ram[..], entries[j], virtBase, entries[j].expected))
                          && (forall j :: 0 <= j < k ==> ram[Offset(entries[i], virtBase) + j] == entries[i].expected[j])
  {
    for i := 0 to |entries|
      invariant forall j :: 0 <= j < i ==> Holds(ram[..], entries[j], virtBase, entries[j].expected)
    {
      assert EntryOk(entries[i], ram.Length, base, virtBase);
      for k := 0 to entries[i].length
        invariant forall j :: 0 <= j < k ==> ram[Offset(entries[i], virtBase) + j] == entries[i].expected[j]
      {
        if ram[Offset(entries[i], virtBase) + k] != entries[i].expected[k] {
          return Some((i, k));
        }
      }
    }
    return None;
  }

  /** Reads every replacement back. */
  method Verify(ram: array<Byte>, entries: seq<Entry>, base: nat, virtBase: Word, readback: (nat, Byte) -> Byte) returns (bad: Option<(nat, nat)>)
    requires AllSized(entries) && Planned(entries, ram.Length, base, virtBase)
    requires forall i :: 0 <= i < |entries| ==> Holds(ram[..], entries[i], virtBase, entries[i].replacement)
    ensures Ordinary(readback) ==> bad.None?
  {
    for i := 0 to |entries| {
      assert EntryOk(entries[i], ram.Length, base, virtBase);
      assert Holds(ram[..], entries[i], virtBase, entries[i].replacement);
      for k := 0 to entries[i].length {
        var at := Offset(entries[i], virtBase) + k;
        assert ram[..][at] == entries[i].replacement[k];
        if readback(at, ram[at]) != entries[i].replacement[k] {
          return Some((i, k));
        }
      }
    }
    return None;
  }

  /** Pairwise overlap check. */
  method FindOverlap(entries: seq<Entry>) returns (found: Option<(nat, nat)>)
    ensures found.None? <==> Separate(entries)
    ensures found.Some? ==> found.value.1 < found.value.0 < |entries| && VaOverlap(entries[found.value.0], entries[found.value.1])
  {
    for i := 0 to |entries|
      invariant Separate(entries[..i])
    {
      for j := 0 to i
        invariant forall k :: 0 <= k < j ==> !VaOverlap(entries[i], entries[k])
      {
        if VaOverlap(entries[i], entries[j]) {
          return Some((i, j));
        }
      }
      assert entries[..i + 1] == entries[..i] + [entries[i]];
    }
    assert entries[..|entries|] == entries;
    return None;
  }

  /** Validates the whole manifest and every expected byte before the first store, stores, and reads back. Any failure leaves
      RAM as it was; success leaves exactly the replacements. On ordinary memory the call succeeds exactly when the manifest
      is applicable, and a read-back mismatch cannot happen. */
  method Apply(ram: array<Byte>, base: nat, virtBase: Word, entries: seq<Entry>, readback: (nat, Byte) -> Byte) returns (report: Report)
    requires AllSized(entries)
    modifies ram
    ensures report.status == OK ==> IsPatched(old(ram[..]), ram[..], entries, virtBase)
    ensures report.status != OK ==> ram[..] == old(ram[..])
    ensures report.status in {OK, VerifyMismatch} <==> Applicable(entries, old(ram[..]), base, virtBase)
    ensures Ordinary(readback) ==> report.status != VerifyMismatch
    ensures report.status == InvalidGeometry <==> !GeometryOk(ram.Length, base)
    ensures report.status == InvalidCount <==> GeometryOk(ram.Length, base) && !(0 < |entries| <= MAX_ENTRIES)
    ensures AboutEntry(report.status) ==>
              && report.entry < |entries| && Planned(entries[..report.entry], ram.Length, base, virtBase)
              && Deserves(entries[report.entry], ram.Length, base, virtBase, report.status)
    ensures report.status == Overlapping ==>
              && Planned(entries, ram.Length, base, virtBase) && report.entry < |entries|
              && exists j :: 0 <= j < report.entry && VaOverlap(entries[report.entry], entries[j])
    ensures report.status == ExpectedMismatch ==>
              && Planned(entries, ram.Length, base, virtBase) && Separate(entries) && report.entry < |entries|
              && (forall j :: 0 <= j < report.entry ==> Holds(old(ram[..]), entries[j], virtBase, entries[j].expected))
    ensures report.status == ExpectedMismatch ==>
              && report.entry < |entries| && report.byte < entries[report.entry].length <= MAX_BYTES
              && 0 <= Offset(entries[report.entry], virtBase) + report.byte < ram.Length
              && old(ram[..])[Offset(entries[report.entry], virtBase) + report.byte] != entries[report.entry].expected[report.byte]
  {
    hide Holds, EntryOk, VaOverlap, Separate, IsPatched, Deserves;
    if !GeometryOk(ram.Length, base) {
      return Report(InvalidGeometry, 0, 0);
    }
    if |entries| == 0 || |entries| > MAX_ENTRIES {
      return Report(InvalidCount, 0, 0);
    }
    for i := 0 to |entries|
      invariant forall j :: 0 <= j < i ==> EntryOk(entries[j], ram.Length, base, virtBase)
      invariant ram[..] == old(ram[..])
    {
      var status := CheckEntry(entries[i], ram.Length, base, virtBase);
      if status != OK {
        return Report(status, i, 0);
      }
    }
    var overlap := FindOverlap(entries);
    if overlap.Some? {
      return Report(Overlapping, overlap.value.0, 0);
    }
    var bad := Compare(ram, entries, base, virtBase);
    if bad.Some? {
      OkBounds(entries[bad.value.0], ram.Length, base, virtBase);
      return Report(ExpectedMismatch, bad.value.0, bad.value.1);
    }
    ghost var original := ram[..];
    StoreAll(ram, entries, base, virtBase);
    PatchedHolds(original, ram[..], entries, virtBase);
    var wrong := Verify(ram, entries, base, virtBase, readback);
    if wrong.Some? {
      Rollback(ram, entries, base, virtBase, original);
      return Report(VerifyMismatch, wrong.value.0, wrong.value.1);
    }
    return Report(OK, 0, 0);
  }

  lemma OkBounds(e: Entry, size: nat, base: nat, virtBase: Word)
    requires Sized(e) && EntryOk(e, size, base, virtBase)
    ensures e.length <= MAX_BYTES && 0 <= Offset(e, virtBase) && Offset(e, virtBase) + e.length <= size
  {
  }

  lemma PatchedHolds(before: seq<Byte>, after: seq<Byte>, entries: seq<Entry>, virtBase: Word)
    requires IsPatched(before, after, entries, virtBase)
    ensures forall i :: 0 <= i < |entries| ==> Holds(after, entries[i], virtBase, entries[i].replacement)
  {
    hide Holds;
  }
}
