/** Which earlier member a hard link in an archive takes its contents from, and which it should. */
module HardLinks {
  import opened Text
  import opened Words
  import opened PayloadTar
  import opened W = TarWriter

  // ------------------------------------------------------------ The exact condition

  /** The regular member of exactly a link's name. */
  predicate Named(e: Entry, prefix: seq<Byte>, link: seq<Byte>) { e.kind == File && e.path == Joined(prefix, link) }

  /** A regular member whose path only ends with the link's text. */
  predicate MerelyEnds(e: Entry, prefix: seq<Byte>, link: seq<Byte>) {
    e.kind == File && EndsWith(e.path, link) && e.path != Joined(prefix, link)
  }

  /** What the link names: the first regular member of exactly its name, if there is one. */
  function Meant(entries: seq<Entry>, prefix: seq<Byte>, link: seq<Byte>): (r: Option<nat>)
    ensures r.Some? ==> r.value < |entries| && Named(entries[r.value], prefix, link)
    ensures forall k :: 0 <= k < (if r.Some? then r.value else |entries|) ==> !Named(entries[k], prefix, link)
  {
    if entries == [] then None
    else if Named(entries[0], prefix, link) then Some(0)
    else match Meant(entries[1..], prefix, link) case None => None case Some(i) => Some(i + 1)
  }

  /** The suffix search finds what the link names, and nothing if the link names nothing, if and only if no regular member
      before the one meant (no regular member at all, if none is meant) merely ends with the link's text. */
  lemma LinkSourceExact(entries: seq<Entry>, prefix: seq<Byte>, link: seq<Byte>)
    ensures var meant := Meant(entries, prefix, link);
            LinkSource(entries, link) == meant
            <==> forall k :: 0 <= k < (if meant.Some? then meant.value else |entries|) ==> !MerelyEnds(entries[k], prefix, link)
  {
    var meant := Meant(entries, prefix, link);
    var n := if meant.Some? then meant.value else |entries|;
    JoinedEnds(prefix, link);
    if forall k :: 0 <= k < n ==> !MerelyEnds(entries[k], prefix, link) {
      NoneEnds(entries, prefix, link, n);
      if meant.Some? {
        SourceAt(entries, n, link);
      } else {
        NoSource(entries, n, link);
      }
    } else {
      var k :| 0 <= k < n && MerelyEnds(entries[k], prefix, link);
      SourceNoLater(entries, k, link);
    }
  }

  lemma NoneEnds(entries: seq<Entry>, prefix: seq<Byte>, link: seq<Byte>, n: nat)
    requires n <= |entries|
    requires forall k :: 0 <= k < n ==> !MerelyEnds(entries[k], prefix, link) && !Named(entries[k], prefix, link)
    ensures forall k :: 0 <= k < n ==> !(EndsWith(entries[k].path, link) && entries[k].kind == File)
  {
    hide EndsWith, Joined;
  }

  lemma JoinedEnds(prefix: seq<Byte>, link: seq<Byte>)
    ensures EndsWith(Joined(prefix, link), link)
  {
  }

  lemma {:induction false} SourceNoLater(entries: seq<Entry>, k: nat, link: seq<Byte>)
    requires k < |entries| && EndsWith(entries[k].path, link) && entries[k].kind == File
    ensures LinkSource(entries, link).Some? && LinkSource(entries, link).value <= k
  {
    hide EndsWith;
    if k > 0 && !(EndsWith(entries[0].path, link) && entries[0].kind == File) {
      SourceNoLater(entries[1..], k - 1, link);
    }
  }

  // ------------------------------------------------------------ An archive on which the search goes wrong

  const A: Byte := 0x61
  const B: Byte := 0x62
  const C: Byte := 0x63
  const D: Byte := 0x64

  function Plain(path: seq<Byte>, body: Body): W.Member {
    W.Member(path, None, 0, 0, body, Zeros(16), Zeros(12), Zeros(88), Zeros(12))
  }

  /** File "aab", file "ab", hard link "c" to "ab", hard link "d" to "b", which names no member. */
  function Four(): seq<W.Member> {
    [Plain([A, A, B], Regular([1], false)), Plain([A, B], Regular([2], false)), Plain([C], Hard([A, B])), Plain([D], Hard([B]))]
  }

  lemma PlainWritable(path: seq<Byte>, body: Body)
    requires 1 <= |path| <= 3 && (forall i :: 0 <= i < |path| ==> A <= path[i] <= D) && !body.Soft?
    requires |W.Target(body)| <= 3 && (forall i :: 0 <= i < |W.Target(body)| ==> A <= W.Target(body)[i] <= D)
    requires body.Regular? ==> |body.bytes| == 1
    ensures Writable(Plain(path, body))
  {
    TraversesAt(path);
    TraversalIsExact(path);
    assert forall i :: 0 <= i < |path| ==> path[i] != DOT;
    assert !HasDotDot(path);
    assert path + Slashes(0) == path;
    Pow8Small();
  }

  lemma FourWritable()
    ensures AllWritable(Four())
  {
    hide Writable;
    PlainWritable([A, A, B], Regular([1], false));
    PlainWritable([A, B], Regular([2], false));
    PlainWritable([C], Hard([A, B]));
    PlainWritable([D], Hard([B]));
  }

  /** The archive is accepted: names and members are few. */
  lemma FourAccepted()
    ensures AllWritable(Four()) && ProvidedAll(EMPTY, Four(), 0, [], ArenaCap(Archive(Four()))).Some?
  {
    hide Writable, W.Written, Concat, LinkSource, ArenaCap;
    FourWritable();
    var cap := ArenaCap(Archive(Four()));
    assert cap >= 4096 by {
      CapBelow(Archive(Four()));
    }
    var ms := Four();
    AWritable(ms);
    AWritable(ms[1..]);
    AWritable(ms[2..]);
    assert ms[1..][1..] == ms[2..] && ms[2..][1..] == ms[3..] && ms[3..][1..] == [];
    AWritable(ms[3..]);
    var at1 := |W.Written(ms[0])|;
    var at2 := at1 + |W.Written(ms[1])|;
    var at3 := at2 + |W.Written(ms[2])|;
    var p1 := Provided(EMPTY, ms[0], BLOCK, [], cap).value;
    var p2 := Provided(p1, ms[1], at1 + BLOCK, [], cap).value;
    FirstEnds([A, B]);
    FirstEnds([B]);
    SourceAt(p2.entries, 0, [A, B]);
    var p3 := Provided(p2, ms[2], at2 + BLOCK, [], cap).value;
    SourceAt(p3.entries, 0, [B]);
    var p4 := Provided(p3, ms[3], at3 + BLOCK, [], cap).value;
    assert ProvidedAll(p4, [], at3 + |W.Written(ms[3])|, [], cap) == Some(p4);
    assert ProvidedAll(p3, ms[3..], at3, [], cap) == Some(p4);
    assert ProvidedAll(p2, ms[2..], at2, [], cap) == Some(p4);
    assert ProvidedAll(p1, ms[1..], at1, [], cap) == Some(p4);
  }

  lemma CapBelow(image: seq<Byte>)
    ensures ArenaCap(image) >= 4096
  {
  }

  function Path(name: seq<Byte>): seq<Byte> { [] + [SLASH] + name }

  lemma FirstEnds(link: seq<Byte>)
    requires link == [A, B] || link == [B]
    ensures EndsWith(Path([A, A, B]), link)
  {
    if link == [B] {
      assert Path([A, A, B])[3..] == [B];
    } else {
      assert Path([A, A, B])[2..] == [A, B];
    }
  }

  /** On this archive both hard links copy the first file: the one that names the second file, and the one that names nothing and
      should be refused. */
  lemma LinkSourceMistaken()
    ensures AllWritable(Four())
    ensures var plan := PlanOf(Archive(Four()), []);
            && plan.Some?
            && var e := plan.value.entries;
               && |e| == 4 && e[0].path == Path([A, A, B]) && e[1].path == Path([A, B])
               && e[2].path == Path([C]) && e[2].content == e[0].content && Meant(e[..2], [], [A, B]) == Some(1)
               && e[3].path == Path([D]) && e[3].content == e[0].content && Meant(e[..3], [], [B]) == None
  {
    hide PlanOf, Writable, Archive, Meant, ProvidedAll, EndsWith;
    FourAccepted();
    RoundTrip(Four(), []);
    var e := PlanOf(Archive(Four()), []).value.entries;
    assert Restores(e[0], Four()[0], e[..0], Archive(Four()), []);
    assert Restores(e[1], Four()[1], e[..1], Archive(Four()), []);
    assert Restores(e[2], Four()[2], e[..2], Archive(Four()), []);
    assert Restores(e[3], Four()[3], e[..3], Archive(Four()), []);
    FirstEnds([A, B]);
    FirstEnds([B]);
    SourceAt(e[..2], 0, [A, B]);
    SourceAt(e[..3], 0, [B]);
    MeantSecond(e[..2]);
    MeantNone(e[..3]);
  }

  lemma MeantSecond(e: seq<Entry>)
    requires |e| == 2 && e[0].path == Path([A, A, B]) && e[1].path == Path([A, B]) && e[1].kind == File
    ensures Meant(e, [], [A, B]) == Some(1)
  {
    JoinedIs([], [A, B]);
    assert |Path([A, A, B])| != |Path([A, B])|;
  }

  lemma MeantNone(e: seq<Entry>)
    requires |e| == 3 && e[0].path == Path([A, A, B]) && e[1].path == Path([A, B]) && e[2].path == Path([C])
    ensures Meant(e, [], [B]) == None
  {
    JoinedIs([], [B]);
    assert Path([C])[1] != Path([B])[1];
    assert |Path([A, A, B])| != |Path([B])| && |Path([A, B])| != |Path([B])|;
    assert !Named(e[0], [], [B]) && !Named(e[1], [], [B]) && !Named(e[2], [], [B]);
  }
}
