/** In-place patching of the flat device tree commutes with parsing it. */
module DeviceTree {
  import opened Text
  import opened Words

  const NAME_LEN: nat := 32
  const MAX_COUNT: nat := 4096
  const MAX_DEPTH: nat := 32

  // ------------------------------------------------------------ Bytes

  function Le32(w: Word): (s: seq<Byte>)
    ensures |s| == 4
  {
    [w % 0x100, w / 0x100 % 0x100, w / 0x1_0000 % 0x100, w / 0x100_0000]
  }

  function Ld32(b: seq<Byte>, p: nat): Word
    requires p + 4 <= |b|
  {
    b[p] as int + 0x100 * b[p + 1] as int + 0x1_0000 * b[p + 2] as int + 0x100_0000 * b[p + 3] as int
  }

  predicate At(b: seq<Byte>, p: nat, s: seq<Byte>) {
    p + |s| <= |b| && b[p..p + |s|] == s
  }

  lemma LdOfLe(b: seq<Byte>, p: nat, w: Word)
    requires At(b, p, Le32(w))
    ensures Ld32(b, p) == w
  {
    var s := b[p..p + 4];
    assert s[0] == b[p] && s[1] == b[p + 1] && s[2] == b[p + 2] && s[3] == b[p + 3];
    var q1: int, q2: int := w / 0x100, w / 0x1_0000;
    assert w == 0x100 * q1 + w % 0x100;
    assert q1 == 0x100 * q2 + q1 % 0x100;
    assert q2 == 0x100 * (w / 0x100_0000) + q2 % 0x100;
  }

  /** A piece of something that stands at `p` stands at its own offset. */
  lemma AtPart(b: seq<Byte>, p: nat, x: seq<Byte>, y: seq<Byte>, z: seq<Byte>)
    requires At(b, p, x + y + z)
    ensures At(b, p, x) && At(b, p + |x|, y) && At(b, p + |x| + |y|, z)
  {
    var s := x + y + z;
    SliceOfSlice(b, p, |s|, 0, |x|);
    SliceOfSlice(b, p, |s|, |x|, |x| + |y|);
    SliceOfSlice(b, p, |s|, |x| + |y|, |s|);
    assert s[0..|x|] == x && s[|x|..|x| + |y|] == y && s[|x| + |y|..|s|] == z;
  }

  lemma AtPair(b: seq<Byte>, p: nat, x: seq<Byte>, y: seq<Byte>)
    requires At(b, p, x + y)
    ensures At(b, p, x) && At(b, p + |x|, y)
  {
    assert x + y == x + y + [];
    AtPart(b, p, x, y, []);
  }

  // ------------------------------------------------------------ Trees and their serialization

  datatype Prop = Prop(name: seq<Byte>, flag: bool, value: seq<Byte>, pad: seq<Byte>)

  datatype Node = Node(props: seq<Prop>, children: seq<Node>)

  function Round4(n: nat): nat { (n + 3) / 4 * 4 }

  predicate PropOk(p: Prop) {
    |p.name| == NAME_LEN && |p.value| < 0x8000_0000 && |p.pad| == Round4(|p.value|) - |p.value|
  }

  predicate PropsOk(ps: seq<Prop>) { forall i :: 0 <= i < |ps| ==> PropOk(ps[i]) }

  /** Well formed within the walker's limits on counts. */
  predicate Ok(n: Node) {
    |n.props| <= MAX_COUNT && |n.children| <= MAX_COUNT && PropsOk(n.props) && AllOk(n.children)
  }

  predicate AllOk(ns: seq<Node>) { forall i :: 0 <= i < |ns| ==> Ok(ns[i]) }

  /** Nesting below a node. */
  function Height(n: Node): nat { HeightAll(n.children) }

  function HeightAll(ns: seq<Node>): nat {
    if ns == [] then 0
    else
      var rest, first := HeightAll(ns[..|ns| - 1]), 1 + Height(ns[|ns| - 1]);
      if first > rest then first else rest
  }

  lemma {:induction false} HeightOfChild(ns: seq<Node>, i: nat)
    requires i < |ns|
    ensures Height(ns[i]) < HeightAll(ns)
  {
    if i < |ns| - 1 {
      HeightOfChild(ns[..|ns| - 1], i);
    }
  }

  function SerProp(p: Prop): (s: seq<Byte>)
    requires PropOk(p)
    ensures |s| == NAME_LEN + 4 + Round4(|p.value|)
  {
    p.name + Le32(|p.value| + (if p.flag then 0x8000_0000 else 0)) + (p.value + p.pad)
  }

  function SerProps(ps: seq<Prop>): seq<Byte>
    requires PropsOk(ps)
  {
    if ps == [] then [] else SerProp(ps[0]) + SerProps(ps[1..])
  }

  function Ser(n: Node): seq<Byte>
    requires Ok(n)
  {
    (Le32(|n.props|) + Le32(|n.children|)) + SerProps(n.props) + SerAll(n.children)
  }

  function SerAll(ns: seq<Node>): seq<Byte>
    requires AllOk(ns)
  {
    if ns == [] then [] else Ser(ns[0]) + SerAll(ns[1..])
  }

  // ------------------------------------------------------------ The walkers as functions of the bytes

  /** Counts of the node at `off`, unless truncated or implausible. */
  function Hdr(b: seq<Byte>, off: nat): Option<(nat, nat)> {
    if off + 8 > |b| then None
    else
      var np, nc := Ld32(b, off), Ld32(b, off + 4);
      if np > MAX_COUNT || nc > MAX_COUNT then None else Some((np, nc))
  }

  function ValueLen(b: seq<Byte>, p: nat): (l: nat)
    requires p + 36 <= |b|
    ensures l < 0x8000_0000
  {
    Ld32(b, p + 32) % 0x8000_0000
  }

  function PropsEndFrom(b: seq<Byte>, p: nat, n: nat): (r: Option<nat>)
    ensures r.Some? ==> r.value >= p
    decreases n
  {
    if n == 0 then Some(p)
    else if p + 36 > |b| then None
    else
      var q := p + 36 + Round4(ValueLen(b, p));
      if q > |b| then None else PropsEndFrom(b, q, n - 1)
  }

  function PropsEnd(b: seq<Byte>, off: nat): Option<nat> {
    match Hdr(b, off) case None => None case Some(h) => PropsEndFrom(b, off + 8, h.0)
  }

  function End(b: seq<Byte>, off: nat, depth: nat): Option<nat>
    decreases MAX_DEPTH + 1 - depth, 0, 0
  {
    if depth > MAX_DEPTH then None
    else
      match Hdr(b, off)
      case None => None
      case Some(h) =>
        match PropsEnd(b, off)
        case None => None
        case Some(p) => EndAll(b, p, h.1, depth)
  }

  /** Past `n` consecutive subtrees at `p`, children of a node at `depth`. */
  function EndAll(b: seq<Byte>, p: nat, n: nat, depth: nat): Option<nat>
    requires depth <= MAX_DEPTH
    decreases MAX_DEPTH + 1 - depth - 1, 1, n
  {
    if n == 0 then Some(p)
    else
      match End(b, p, depth + 1)
      case None => None
      case Some(q) => EndAll(b, q, n - 1, depth)
  }

  /** Offset and length of the first value named `name` among `n` properties at `p`. */
  function PropFrom(b: seq<Byte>, p: nat, n: nat, name: seq<Byte>): Option<(nat, nat)>
    decreases n
  {
    if n == 0 || p + 36 > |b| then None
    else
      var l := ValueLen(b, p);
      if p + 36 + l > |b| then None
      else if CString(b[p..p + NAME_LEN]) == name then Some((p + 36, l))
      else PropFrom(b, p + 36 + Round4(l), n - 1, name)
  }

  function PropAt(b: seq<Byte>, off: nat, name: seq<Byte>): Option<(nat, nat)> {
    match Hdr(b, off) case None => None case Some(h) => PropFrom(b, off + 8, h.0, name)
  }

  const NAME: seq<Byte> := [0x6e, 0x61, 0x6d, 0x65]

  /** Is a name value of the given bytes this path component, exactly or up to a terminator? */
  predicate Names(value: seq<Byte>, component: seq<Byte>) {
    component <= value && (|value| == |component| || value[|component|] == 0)
  }

  predicate NodeNamed(b: seq<Byte>, off: nat, component: seq<Byte>) {
    match PropAt(b, off, NAME)
    case None => false
    case Some(v) => v.0 + v.1 <= |b| && Names(b[v.0..v.0 + v.1], component)
  }

  /** The first of `n` consecutive subtrees at `c` with the given name. */
  function ChildFrom(b: seq<Byte>, c: nat, n: nat, component: seq<Byte>): Option<nat>
    decreases n
  {
    if n == 0 then None
    else if NodeNamed(b, c, component) then Some(c)
    else match End(b, c, 0) case None => None case Some(q) => ChildFrom(b, q, n - 1, component)
  }

  function Child(b: seq<Byte>, off: nat, component: seq<Byte>): Option<nat> {
    match Hdr(b, off)
    case None => None
    case Some(h) => match PropsEnd(b, off) case None => None case Some(c) => ChildFrom(b, c, h.1, component)
  }

  function Walk(b: seq<Byte>, off: nat, components: seq<seq<Byte>>): Option<nat>
    decreases |components|
  {
    if components == [] then Some(off)
    else match Child(b, off, components[0]) case None => None case Some(c) => Walk(b, c, components[1..])
  }

  /** Nonempty pieces between slashes. */
  function Components(path: seq<Byte>): seq<seq<Byte>>
    decreases |path|
  {
    if path == [] then []
    else if path[0] == SLASH then Components(path[1..])
    else [path[..SlashAt(path)]] + Components(path[SlashAt(path)..])
  }

  // ------------------------------------------------------------ Tree-level meaning

  function FirstProp(ps: seq<Prop>, name: seq<Byte>): (r: Option<nat>)
    ensures r.Some? ==> r.value < |ps|
  {
    if ps == [] then None
    else if CString(ps[0].name) == name then Some(0)
    else match FirstProp(ps[1..], name) case None => None case Some(i) => Some(i + 1)
  }

  predicate TreeNamed(n: Node, component: seq<Byte>) {
    match FirstProp(n.props, NAME) case None => false case Some(i) => Names(n.props[i].value, component)
  }

  function FirstChild(ns: seq<Node>, component: seq<Byte>): (r: Option<nat>)
    ensures r.Some? ==> r.value < |ns|
  {
    if ns == [] then None
    else if TreeNamed(ns[0], component) then Some(0)
    else match FirstChild(ns[1..], component) case None => None case Some(i) => Some(i + 1)
  }

  /** The child indices a path selects: the first matching child at each level. */
  function Select(n: Node, components: seq<seq<Byte>>): (r: Option<seq<nat>>)
    ensures r.Some? ==> Inside(n, r.value)
    decreases |components|
  {
    if components == [] then Some([])
    else
      match FirstChild(n.children, components[0])
      case None => None
      case Some(i) =>
        match Select(n.children[i], components[1..])
        case None => None
        case Some(rest) => PrependIndex(n, i, rest); Some([i] + rest)
  }

  predicate Inside(n: Node, at: seq<nat>)
    decreases |at|
  {
    at == [] || (at[0] < |n.children| && Inside(n.children[at[0]], at[1..]))
  }

  lemma PrependIndex(n: Node, i: nat, rest: seq<nat>)
    requires i < |n.children| && Inside(n.children[i], rest)
    ensures Inside(n, [i] + rest)
  {
    assert ([i] + rest)[1..] == rest;
  }

  function NodeAt(n: Node, at: seq<nat>): Node
    requires Inside(n, at)
    decreases |at|
  {
    if at == [] then n else NodeAt(n.children[at[0]], at[1..])
  }

  /** The tree with the value of one property replaced. */
  function Replaced(n: Node, at: seq<nat>, i: nat, value: seq<Byte>): (r: Node)
    requires Inside(n, at) && i < |NodeAt(n, at).props|
    decreases |at|
  {
    if at == [] then n.(props := PropsWith(n.props, i, value))
    else n.(children := n.children[at[0] := Replaced(n.children[at[0]], at[1..], i, value)])
  }

  // ------------------------------------------------------------ Unfolding serializations

  lemma SerPropsStep(ps: seq<Prop>)
    requires PropsOk(ps) && ps != []
    ensures PropOk(ps[0]) && PropsOk(ps[1..]) && SerProps(ps) == SerProp(ps[0]) + SerProps(ps[1..])
    ensures |SerProp(ps[0])| == 36 + Round4(|ps[0].value|)
  {
  }

  lemma SerAllStep(ns: seq<Node>)
    requires AllOk(ns) && ns != []
    ensures Ok(ns[0]) && AllOk(ns[1..]) && SerAll(ns) == Ser(ns[0]) + SerAll(ns[1..])
  {
    hide Ser;
  }

  lemma SerNothing()
    ensures PropsOk([]) && SerProps([]) == [] && AllOk([]) && SerAll([]) == []
  {
  }

  lemma OkParts(n: Node)
    requires Ok(n)
    ensures PropsOk(n.props) && AllOk(n.children) && |n.props| <= MAX_COUNT && |n.children| <= MAX_COUNT
    ensures Ser(n) == (Le32(|n.props|) + Le32(|n.children|)) + SerProps(n.props) + SerAll(n.children)
  {
    hide Le32, SerProps, SerAll;
  }

  lemma OkChild(ns: seq<Node>, i: nat)
    requires AllOk(ns) && i < |ns|
    ensures Ok(ns[i])
  {
  }

  // ------------------------------------------------------------ Walking serialized trees

  function PropStart(ps: seq<Prop>, i: nat): nat
    requires i < |ps| && PropsOk(ps)
  {
    if i == 0 then 0 else |SerProp(ps[0])| + PropStart(ps[1..], i - 1)
  }

  function ChildStart(ns: seq<Node>, i: nat): nat
    requires i < |ns| && AllOk(ns)
  {
    if i == 0 then 0 else |Ser(ns[0])| + ChildStart(ns[1..], i - 1)
  }

  /** Where the children of a node start. */
  function ChildrenStart(n: Node): nat
    requires Ok(n)
  {
    8 + |SerProps(n.props)|
  }

  /** Where a selected node starts inside the serialization of the tree. */
  function NodeStart(n: Node, at: seq<nat>): nat
    requires Ok(n) && Inside(n, at)
    decreases |at|
  {
    if at == [] then 0
    else ChildrenStart(n) + ChildStart(n.children, at[0]) + NodeStart(n.children[at[0]], at[1..])
  }

  lemma PropHere(b: seq<Byte>, p: nat, q: Prop)
    requires PropOk(q) && At(b, p, SerProp(q))
    ensures p + 36 + Round4(|q.value|) <= |b| && ValueLen(b, p) == |q.value|
    ensures b[p..p + NAME_LEN] == q.name && At(b, p + 36, q.value)
  {
    var w := |q.value| + (if q.flag then 0x8000_0000 else 0);
    AtPart(b, p, q.name, Le32(w), q.value + q.pad);
    hide Le32;
    LdOfLe(b, p + 32, w);
    AtPair(b, p + 36, q.value, q.pad);
  }

  lemma {:induction false} PropsEndSer(b: seq<Byte>, p: nat, ps: seq<Prop>)
    requires PropsOk(ps) && At(b, p, SerProps(ps))
    ensures PropsEndFrom(b, p, |ps|) == Some(p + |SerProps(ps)|)
    decreases |ps|
  {
    hide SerProp, SerProps, ValueLen, At, PropsOk, Round4;
    SerNothing();
    if ps != [] {
      SerPropsStep(ps);
      AtPair(b, p, SerProp(ps[0]), SerProps(ps[1..]));
      PropHere(b, p, ps[0]);
      PropsEndSer(b, p + |SerProp(ps[0])|, ps[1..]);
    }
  }

  /** Did the lookup find this property, where it stands? */
  ghost predicate FoundProp(b: seq<Byte>, p: nat, ps: seq<Prop>, i: Option<nat>, r: Option<(nat, nat)>)
    requires PropsOk(ps) && (i.Some? ==> i.value < |ps|)
  {
    match i
    case None => r == None
    case Some(k) => r == Some((p + PropStart(ps, k) + 36, |ps[k].value|)) && At(b, p + PropStart(ps, k) + 36, ps[k].value)
  }

  /** A property lookup over serialized properties finds the first of that name. */
  lemma {:induction false} PropFromSer(b: seq<Byte>, p: nat, ps: seq<Prop>, name: seq<Byte>)
    requires PropsOk(ps) && At(b, p, SerProps(ps))
    ensures FoundProp(b, p, ps, FirstProp(ps, name), PropFrom(b, p, |ps|, name))
    decreases |ps|
  {
    hide SerProp, SerProps, ValueLen, At, CString, PropsOk, Round4;
    SerNothing();
    if ps != [] {
      SerPropsStep(ps);
      AtPair(b, p, SerProp(ps[0]), SerProps(ps[1..]));
      PropHere(b, p, ps[0]);
      PropFromSer(b, p + |SerProp(ps[0])|, ps[1..], name);
    }
  }

  lemma HdrSer(b: seq<Byte>, off: nat, n: Node)
    requires Ok(n) && At(b, off, Ser(n))
    ensures Hdr(b, off) == Some((|n.props|, |n.children|))
    ensures PropsOk(n.props) && AllOk(n.children)
    ensures At(b, off + 8, SerProps(n.props)) && At(b, off + ChildrenStart(n), SerAll(n.children))
    ensures |Ser(n)| == ChildrenStart(n) + |SerAll(n.children)| && off + |Ser(n)| <= |b|
  {
    hide SerProps, SerAll, Ser, Le32, PropsOk, AllOk, Ok, Ld32;
    OkParts(n);
    var counts := Le32(|n.props|) + Le32(|n.children|);
    AtPart(b, off, counts, SerProps(n.props), SerAll(n.children));
    AtPair(b, off, Le32(|n.props|), Le32(|n.children|));
    LdOfLe(b, off, |n.props|);
    LdOfLe(b, off + 4, |n.children|);
  }

  /** The walker finds the exact extent of a serialized subtree, up to its depth limit. */
  lemma {:induction false} EndSer(b: seq<Byte>, off: nat, n: Node, depth: nat)
    requires Ok(n) && At(b, off, Ser(n)) && depth + Height(n) <= MAX_DEPTH
    ensures End(b, off, depth) == Some(off + |Ser(n)|)
    decreases n, 1
  {
    hide At, SerProps, SerAll, Ser, PropsEndFrom, Ok, PropsOk, AllOk, HeightAll;
    HdrSer(b, off, n);
    PropsEndSer(b, off + 8, n.props);
    HeightUnfold(n);
    EndAllSer(b, off + ChildrenStart(n), n.children, depth);
  }

  lemma {:induction false} EndAllSer(b: seq<Byte>, p: nat, ns: seq<Node>, depth: nat)
    requires AllOk(ns) && At(b, p, SerAll(ns)) && depth + HeightAll(ns) <= MAX_DEPTH
    ensures EndAll(b, p, |ns|, depth) == Some(p + |SerAll(ns)|)
    decreases ns, 0
  {
    hide At, End, Ser, SerAll, Height, HeightAll, Ok, AllOk;
    SerNothing();
    if ns != [] {
      HeightOfChild(ns, 0);
      HeightOfRest(ns);
      SerAllStep(ns);
      AtPair(b, p, Ser(ns[0]), SerAll(ns[1..]));
      EndSer(b, p, ns[0], depth + 1);
      EndAllSer(b, p + |Ser(ns[0])|, ns[1..], depth);
    }
  }

  lemma {:induction false} HeightOfRest(ns: seq<Node>)
    requires ns != []
    ensures HeightAll(ns[1..]) <= HeightAll(ns)
  {
    var m := |ns| - 1;
    if m > 0 {
      HeightOfRest(ns[..m]);
      assert ns[1..][..m - 1] == ns[..m][1..];
      assert ns[1..][m - 1] == ns[m];
    }
  }

  lemma HeightUnfold(n: Node)
    ensures Height(n) == HeightAll(n.children)
  {
  }

  // ------------------------------------------------------------ Every walked extent is a serialized tree

  /** Storing a loaded word gives back its bytes. */
  lemma LeOfLd(b: seq<Byte>, p: nat)
    requires p + 4 <= |b|
    ensures At(b, p, Le32(Ld32(b, p)))
  {
    var w: int := Ld32(b, p);
    var b0: int, b1: int, b2: int, b3: int := b[p], b[p + 1], b[p + 2], b[p + 3];
    assert w / 0x100 == b1 + 0x100 * b2 + 0x1_0000 * b3 && w % 0x100 == b0;
    assert w / 0x1_0000 == b2 + 0x100 * b3 && w / 0x100_0000 == b3;
    assert b[p..p + 4] == [b0, b1, b2, b3];
  }

  lemma AtJoin(b: seq<Byte>, p: nat, x: seq<Byte>, y: seq<Byte>)
    requires At(b, p, x) && At(b, p + |x|, y)
    ensures At(b, p, x + y)
  {
    assert b[p..p + |x + y|] == b[p..p + |x|] + b[p + |x|..p + |x + y|];
  }

  lemma AtSelf(b: seq<Byte>, p: nat, n: nat)
    requires p + n <= |b|
    ensures At(b, p, b[p..p + n])
  {
  }

  lemma RoundUp(l: nat)
    ensures Round4(l) >= l
  {
  }

  /** The property whose bytes stand at `p`. */
  lemma PropParsed(b: seq<Byte>, p: nat) returns (q: Prop)
    requires p + 36 <= |b| && p + 36 + Round4(ValueLen(b, p)) <= |b|
    ensures PropOk(q) && At(b, p, SerProp(q)) && |SerProp(q)| == 36 + Round4(ValueLen(b, p))
  {
    hide Le32, Ld32, At, Round4;
    var w, l := Ld32(b, p + 32), ValueLen(b, p);
    RoundUp(l);
    q := Prop(b[p..p + 32], w >= 0x8000_0000, b[p + 36..p + 36 + l], b[p + 36 + l..p + 36 + Round4(l)]);
    LeOfLd(b, p + 32);
    assert l + (if q.flag then 0x8000_0000 else 0) == w;
    AtSelf(b, p, 32);
    AtSelf(b, p + 36, l);
    AtSelf(b, p + 36 + l, Round4(l) - l);
    AtJoin(b, p, q.name, Le32(w));
    AtJoin(b, p + 36, q.value, q.pad);
    AtJoin(b, p, q.name + Le32(w), q.value + q.pad);
  }

  lemma AtNothing(b: seq<Byte>, p: nat)
    requires p <= |b|
    ensures At(b, p, [])
  {
  }

  lemma {:induction false} PropsParsed(b: seq<Byte>, p: nat, n: nat) returns (ps: seq<Prop>)
    requires p <= |b| && PropsEndFrom(b, p, n).Some?
    ensures |ps| == n && PropsOk(ps) && At(b, p, SerProps(ps)) && PropsEndFrom(b, p, n) == Some(p + |SerProps(ps)|)
    decreases n
  {
    hide At, SerProp, SerProps, Round4, ValueLen, PropOk, PropsOk;
    ps := [];
    SerNothing();
    AtNothing(b, p);
    if n > 0 {
      var q := PropParsed(b, p);
      var rest := PropsParsed(b, p + |SerProp(q)|, n - 1);
      ps := [q] + rest;
      PropsPrepend(q, rest);
      AtJoin(b, p, SerProp(q), SerProps(rest));
    }
  }

  lemma PropsPrepend(q: Prop, rest: seq<Prop>)
    requires PropOk(q) && PropsOk(rest)
    ensures PropsOk([q] + rest) && SerProps([q] + rest) == SerProp(q) + SerProps(rest)
  {
    hide SerProp, PropOk;
    var ps := [q] + rest;
    assert ps[1..] == rest;
    assert forall i :: 0 < i < |ps| ==> ps[i] == rest[i - 1];
  }

  /** The tree whose bytes the walker has passed over. */
  lemma {:induction false} TreeParsed(b: seq<Byte>, off: nat, depth: nat) returns (n: Node)
    requires End(b, off, depth).Some?
    ensures Ok(n) && At(b, off, Ser(n)) && depth + Height(n) <= MAX_DEPTH && End(b, off, depth) == Some(off + |Ser(n)|)
    decreases MAX_DEPTH + 1 - depth, 0, 0
  {
    hide At, SerProps, SerAll, Ser, PropsEndFrom, Ok, PropsOk, AllOk, HeightAll, Le32, Ld32;
    var h := Hdr(b, off).value;
    var ps := PropsParsed(b, off + 8, h.0);
    AtFits(b, off + 8, SerProps(ps));
    var ns := ChildrenParsed(b, off + 8 + |SerProps(ps)|, h.1, depth);
    n := Node(ps, ns);
    NodeOk(n);
    HeightUnfold(n);
    OkParts(n);
    LeOfLd(b, off);
    LeOfLd(b, off + 4);
    AtJoin(b, off, Le32(h.0), Le32(h.1));
    AtJoin(b, off, Le32(h.0) + Le32(h.1), SerProps(ps));
    AtJoin(b, off, Le32(h.0) + Le32(h.1) + SerProps(ps), SerAll(ns));
  }

  lemma NodeOk(n: Node)
    requires |n.props| <= MAX_COUNT && |n.children| <= MAX_COUNT && PropsOk(n.props) && AllOk(n.children)
    ensures Ok(n)
  {
  }

  lemma {:induction false} ChildrenParsed(b: seq<Byte>, p: nat, n: nat, depth: nat) returns (ns: seq<Node>)
    requires depth <= MAX_DEPTH && p <= |b| && EndAll(b, p, n, depth).Some?
    ensures |ns| == n && AllOk(ns) && At(b, p, SerAll(ns)) && depth + HeightAll(ns) <= MAX_DEPTH
    ensures EndAll(b, p, n, depth) == Some(p + |SerAll(ns)|)
    decreases MAX_DEPTH + 1 - depth - 1, 1, n
  {
    hide At, Ser, SerAll, Ok, AllOk, Height, HeightAll, End;
    ns := [];
    SerNothing();
    NoHeight();
    AtNothing(b, p);
    if n > 0 {
      DeepEnough(b, p, depth);
      var x := TreeParsed(b, p, depth + 1);
      AtFits(b, p, Ser(x));
      var rest := ChildrenParsed(b, p + |Ser(x)|, n - 1, depth);
      ns := [x] + rest;
      ChildrenPrepend(x, rest);
      HeightPrepend(x, rest);
      AtJoin(b, p, Ser(x), SerAll(rest));
    }
  }

  lemma AtFits(b: seq<Byte>, p: nat, s: seq<Byte>)
    requires At(b, p, s)
    ensures p + |s| <= |b|
  {
  }

  lemma DeepEnough(b: seq<Byte>, p: nat, depth: nat)
    requires End(b, p, depth + 1).Some?
    ensures depth + 1 <= MAX_DEPTH
  {
  }

  lemma NoHeight()
    ensures HeightAll([]) == 0
  {
  }

  lemma ChildrenPrepend(x: Node, rest: seq<Node>)
    requires Ok(x) && AllOk(rest)
    ensures AllOk([x] + rest) && SerAll([x] + rest) == Ser(x) + SerAll(rest)
  {
    hide Ser, Ok;
    var ns := [x] + rest;
    assert ns[1..] == rest;
    assert forall i :: 0 < i < |ns| ==> ns[i] == rest[i - 1];
  }

  lemma {:induction false} HeightPrepend(x: Node, rest: seq<Node>)
    ensures HeightAll([x] + rest) == if 1 + Height(x) > HeightAll(rest) then 1 + Height(x) else HeightAll(rest)
  {
    hide Height;
    var ns := [x] + rest;
    var m := |rest| - 1;
    if rest == [] {
      assert ns == [x] && ns[..0] == [];
    } else {
      HeightPrepend(x, rest[..m]);
      assert ns[..|ns| - 1] == [x] + rest[..m] && ns[|ns| - 1] == rest[m];
    }
  }

  /** The tree is serialized at `off`, up to `e`, within the depth left. */
  ghost predicate Stands(b: seq<Byte>, off: nat, e: nat, depth: nat, n: Node) {
    Ok(n) && At(b, off, Ser(n)) && e == off + |Ser(n)| && depth + Height(n) <= MAX_DEPTH
  }

  /** The walker accepts exactly the serialized trees within its limits, and tells where each ends. */
  lemma EndIsSerialized(b: seq<Byte>, off: nat, depth: nat, e: nat)
    ensures End(b, off, depth) == Some(e) <==> exists n :: Stands(b, off, e, depth, n)
  {
    hide End, At, Ser, Ok, Height;
    if End(b, off, depth) == Some(e) {
      var n := TreeParsed(b, off, depth);
      assert Stands(b, off, e, depth, n);
    }
    if n :| Stands(b, off, e, depth, n) {
      EndSer(b, off, n, depth);
    }
  }

  lemma NamedSer(b: seq<Byte>, off: nat, n: Node, component: seq<Byte>)
    requires Ok(n) && At(b, off, Ser(n))
    ensures NodeNamed(b, off, component) <==> TreeNamed(n, component)
  {
    hide SerProps, SerAll, Ser, PropFrom, FirstProp, Names, PropStart, Ok, PropsOk, AllOk;
    HdrSer(b, off, n);
    PropFromSer(b, off + 8, n.props, NAME);
  }

  ghost predicate FoundChild(b: seq<Byte>, c: nat, ns: seq<Node>, i: Option<nat>, r: Option<nat>)
    requires AllOk(ns) && (i.Some? ==> i.value < |ns|)
  {
    match i
    case None => r == None
    case Some(k) => r == Some(c + ChildStart(ns, k)) && At(b, c + ChildStart(ns, k), Ser(ns[k]))
  }

  /** A child search over serialized children finds the first of that name. */
  lemma {:induction false} ChildSer(b: seq<Byte>, c: nat, ns: seq<Node>, component: seq<Byte>)
    requires AllOk(ns) && HeightAll(ns) <= MAX_DEPTH + 1 && At(b, c, SerAll(ns))
    ensures FoundChild(b, c, ns, FirstChild(ns, component), ChildFrom(b, c, |ns|, component))
    decreases |ns|
  {
    hide At, End, Ser, SerAll, Height, HeightAll, NodeNamed, TreeNamed, Ok, AllOk, FoundChild;
    FoundNothing(b, c);
    if ns != [] {
      HeightOfChild(ns, 0);
      HeightOfRest(ns);
      SerAllStep(ns);
      AtPair(b, c, Ser(ns[0]), SerAll(ns[1..]));
      NamedSer(b, c, ns[0], component);
      FoundFirst(b, c, ns);
      if !TreeNamed(ns[0], component) {
        EndSer(b, c, ns[0], 0);
        ChildSer(b, c + |Ser(ns[0])|, ns[1..], component);
        FoundNext(b, c, ns, FirstChild(ns[1..], component), ChildFrom(b, c + |Ser(ns[0])|, |ns| - 1, component));
      }
    }
  }

  lemma FoundNothing(b: seq<Byte>, c: nat)
    ensures AllOk([]) && FoundChild(b, c, [], None, None)
  {
  }

  lemma FoundFirst(b: seq<Byte>, c: nat, ns: seq<Node>)
    requires AllOk(ns) && ns != [] && Ok(ns[0]) && At(b, c, Ser(ns[0]))
    ensures FoundChild(b, c, ns, Some(0), Some(c))
  {
    hide At, Ser, Ok;
  }

  lemma FoundNext(b: seq<Byte>, c: nat, ns: seq<Node>, i: Option<nat>, r: Option<nat>)
    requires AllOk(ns) && ns != [] && Ok(ns[0]) && AllOk(ns[1..]) && (i.Some? ==> i.value < |ns| - 1)
    requires FoundChild(b, c + |Ser(ns[0])|, ns[1..], i, r)
    ensures FoundChild(b, c, ns, match i case None => None case Some(k) => Some(k + 1), r)
  {
    hide At, Ser, Ok;
  }

  /** Did the walk reach this selection? */
  ghost predicate Reached(b: seq<Byte>, off: nat, n: Node, sel: Option<seq<nat>>, r: Option<nat>)
    requires Ok(n)
  {
    match sel
    case None => r == None
    case Some(at) => && Inside(n, at) && r == Some(off + NodeStart(n, at))
                     && Ok(NodeAt(n, at)) && At(b, off + NodeStart(n, at), Ser(NodeAt(n, at)))
  }

  /** Walking a path through serialized bytes reaches the node the tree's own path selection names. */
  lemma {:induction false} WalkSer(b: seq<Byte>, off: nat, n: Node, components: seq<seq<Byte>>)
    requires Ok(n) && Height(n) <= MAX_DEPTH + 1 && At(b, off, Ser(n))
    ensures Reached(b, off, n, Select(n, components), Walk(b, off, components))
    decreases |components|
  {
    hide At, SerProps, SerAll, Ser, PropsEndFrom, HeightAll, ChildFrom, FirstChild, Ok, AllOk, PropsOk, ChildStart, ChildrenStart, Height;
    if components != [] {
      HdrSer(b, off, n);
      PropsEndSer(b, off + 8, n.props);
      HeightUnfold(n);
      ChildrenHere(n);
      ChildSer(b, off + ChildrenStart(n), n.children, components[0]);
      var i := FirstChild(n.children, components[0]);
      if i.Some? {
        var child := n.children[i.value];
        HeightOfChild(n.children, i.value);
        OkChild(n.children, i.value);
        var c := off + ChildrenStart(n) + ChildStart(n.children, i.value);
        WalkSer(b, c, child, components[1..]);
        Prepended(b, off, n, i.value, Select(child, components[1..]), Walk(b, c, components[1..]));
      }
    }
  }

  lemma ChildrenHere(n: Node)
    requires Ok(n)
    ensures ChildrenStart(n) == 8 + |SerProps(n.props)|
  {
  }

  lemma Prepended(b: seq<Byte>, off: nat, n: Node, i: nat, sel: Option<seq<nat>>, r: Option<nat>)
    requires Ok(n) && AllOk(n.children) && i < |n.children| && Ok(n.children[i])
    requires Reached(b, off + ChildrenStart(n) + ChildStart(n.children, i), n.children[i], sel, r)
    ensures Reached(b, off, n, match sel case None => None case Some(rest) => Some([i] + rest), r)
  {
    hide At, Ser, Ok, AllOk, ChildStart, ChildrenStart;
    if sel.Some? {
      PrependIndex(n, i, sel.value);
      assert ([i] + sel.value)[1..] == sel.value;
    }
  }

  // ------------------------------------------------------------ Replacing a value

  function Overwrite(b: seq<Byte>, k: nat, v: seq<Byte>): (r: seq<Byte>)
    requires k + |v| <= |b|
    ensures |r| == |b| && At(r, k, v)
    ensures forall j :: 0 <= j < |b| && !(k <= j < k + |v|) ==> r[j] == b[j]
  {
    b[..k] + v + b[k + |v|..]
  }

  /** Bytes away from the overwritten ones stand as they did. */
  lemma Elsewhere(b: seq<Byte>, k: nat, v: seq<Byte>, p: nat, x: seq<Byte>)
    requires k + |v| <= |b| && At(b, p, x) && (p + |x| <= k || k + |v| <= p)
    ensures At(Overwrite(b, k, v), p, x)
  {
    var r := Overwrite(b, k, v);
    assert r[p..p + |x|] == b[p..p + |x|];
  }

  /** `x` becomes `x2` of the same length, what is behind stays. */
  lemma FirstChanged(b: seq<Byte>, k: nat, v: seq<Byte>, p: nat, x: seq<Byte>, x2: seq<Byte>, y: seq<Byte>)
    requires At(b, p, x + y) && p <= k && k + |v| <= p + |x| && k + |v| <= |b| && |x2| == |x| && At(Overwrite(b, k, v), p, x2)
    ensures At(Overwrite(b, k, v), p, x2 + y)
  {
    AtPair(b, p, x, y);
    Elsewhere(b, k, v, p + |x|, y);
    AtJoin(Overwrite(b, k, v), p, x2, y);
  }

  /** What is in front stays, `y` becomes `y2`. */
  lemma SecondChanged(b: seq<Byte>, k: nat, v: seq<Byte>, p: nat, x: seq<Byte>, y: seq<Byte>, y2: seq<Byte>)
    requires At(b, p, x + y) && p + |x| <= k && k + |v| <= |b| && At(Overwrite(b, k, v), p + |x|, y2)
    ensures At(Overwrite(b, k, v), p, x + y2)
  {
    AtPair(b, p, x, y);
    Elsewhere(b, k, v, p, x);
    AtJoin(Overwrite(b, k, v), p, x, y2);
  }

  function PropsWith(ps: seq<Prop>, i: nat, v: seq<Byte>): seq<Prop>
    requires i < |ps|
  {
    ps[i := ps[i].(value := v)]
  }

  lemma PropsWithStep(ps: seq<Prop>, i: nat, v: seq<Byte>)
    requires i < |ps| && PropsOk(ps) && |v| == |ps[i].value|
    ensures PropsOk(PropsWith(ps, i, v))
    ensures i == 0 ==> PropsWith(ps, i, v)[0] == ps[0].(value := v) && PropsWith(ps, i, v)[1..] == ps[1..]
    ensures i > 0 ==> PropsWith(ps, i, v)[0] == ps[0] && PropsWith(ps, i, v)[1..] == PropsWith(ps[1..], i - 1, v)
  {
  }

  lemma {:induction false} PropsReplaced(b: seq<Byte>, p: nat, ps: seq<Prop>, i: nat, v: seq<Byte>)
    requires PropsOk(ps) && At(b, p, SerProps(ps)) && i < |ps| && |v| == |ps[i].value|
    ensures var qs := PropsWith(ps, i, v);
            var k := p + PropStart(ps, i) + 36;
            && PropsOk(qs) && |SerProps(qs)| == |SerProps(ps)|
            && p <= k && k + |v| <= p + |SerProps(ps)| && k + |v| <= |b| && At(Overwrite(b, k, v), p, SerProps(qs))
    decreases |ps|
  {
    hide SerProp, SerProps, At, PropsOk, Overwrite, PropsWith, PropOk;
    SerPropsStep(ps);
    PropsWithStep(ps, i, v);
    PropsWithSize(ps, i, v);
    var qs := PropsWith(ps, i, v);
    SerPropsStep(qs);
    var first, rest := SerProp(ps[0]), SerProps(ps[1..]);
    AtPair(b, p, first, rest);
    AtFits(b, p, first + rest);
    if i == 0 {
      PropReplaced(b, p, ps[0], v);
      FirstChanged(b, p + 36, v, p, first, SerProp(qs[0]), rest);
    } else {
      PropsReplaced(b, p + |first|, ps[1..], i - 1, v);
      SecondChanged(b, p + PropStart(ps, i) + 36, v, p, first, rest, SerProps(qs[1..]));
    }
  }

  lemma PropReplaced(b: seq<Byte>, p: nat, q: Prop, v: seq<Byte>)
    requires PropOk(q) && At(b, p, SerProp(q)) && |v| == |q.value|
    ensures PropOk(q.(value := v)) && |SerProp(q.(value := v))| == |SerProp(q)|
    ensures p + 36 + |v| <= p + |SerProp(q)| <= |b| && At(Overwrite(b, p + 36, v), p, SerProp(q.(value := v)))
  {
    var w := |q.value| + (if q.flag then 0x8000_0000 else 0);
    var head := q.name + Le32(w);
    hide Le32;
    AtPair(b, p, head, q.value + q.pad);
    AtPair(b, p + 36, q.value, q.pad);
    var r := Overwrite(b, p + 36, v);
    FirstChanged(b, p + 36, v, p + 36, q.value, v, q.pad);
    SecondChanged(b, p + 36, v, p, head, q.value + q.pad, v + q.pad);
  }

  lemma {:induction false} ChildFits(ns: seq<Node>, i: nat)
    requires AllOk(ns) && i < |ns|
    ensures Ok(ns[i]) && ChildStart(ns, i) + |Ser(ns[i])| <= |SerAll(ns)|
    decreases |ns|
  {
    hide Ser, SerAll, AllOk, Ok;
    SerAllStep(ns);
    if i > 0 {
      ChildFits(ns[1..], i - 1);
    }
  }

  lemma AllWithStep(ns: seq<Node>, i: nat, m: Node)
    requires i < |ns| && AllOk(ns) && Ok(m)
    ensures AllOk(ns[i := m])
    ensures i == 0 ==> ns[i := m][0] == m && ns[i := m][1..] == ns[1..]
    ensures i > 0 ==> ns[i := m][0] == ns[0] && ns[i := m][1..] == ns[1..][i - 1 := m]
  {
  }

  /** One child changed in place, its neighbours untouched. */
  lemma {:induction false} ChildReplaced(b: seq<Byte>, p: nat, ns: seq<Node>, i: nat, m: Node, k: nat, v: seq<Byte>)
    requires AllOk(ns) && At(b, p, SerAll(ns)) && i < |ns| && Ok(ns[i]) && Ok(m) && |Ser(m)| == |Ser(ns[i])|
    requires p + ChildStart(ns, i) <= k && k + |v| <= p + ChildStart(ns, i) + |Ser(ns[i])| && k + |v| <= |b|
    requires At(Overwrite(b, k, v), p + ChildStart(ns, i), Ser(m))
    ensures AllOk(ns[i := m]) && |SerAll(ns[i := m])| == |SerAll(ns)|
    ensures At(Overwrite(b, k, v), p, SerAll(ns[i := m]))
    decreases |ns|
  {
    hide Ser, SerAll, At, AllOk, Ok, Overwrite;
    SerAllStep(ns);
    AllWithStep(ns, i, m);
    SerAllStep(ns[i := m]);
    var first, rest := Ser(ns[0]), SerAll(ns[1..]);
    AtPair(b, p, first, rest);
    if i == 0 {
      FirstChanged(b, k, v, p, first, Ser(m), rest);
    } else {
      ChildReplaced(b, p + |first|, ns[1..], i - 1, m, k, v);
      SecondChanged(b, k, v, p, first, rest, SerAll(ns[1..][i - 1 := m]));
    }
  }

  /** Where the value of a selected property stands. */
  function ValueStart(n: Node, at: seq<nat>, i: nat): nat
    requires Ok(n) && Inside(n, at) && Ok(NodeAt(n, at)) && i < |NodeAt(n, at).props|
  {
    NodeStart(n, at) + 8 + PropStart(NodeAt(n, at).props, i) + 36
  }

  /** After overwriting `v` at `k`, node `r` stands where `n` stood. */
  ghost predicate Became(b: seq<Byte>, off: nat, n: Node, r: Node, k: nat, v: seq<Byte>)
    requires Ok(n)
  {
    && Ok(r) && |Ser(r)| == |Ser(n)| && off <= k && k + |v| <= off + |Ser(n)| && k + |v| <= |b|
    && At(Overwrite(b, k, v), off, Ser(r))
  }

  lemma RootReplaced(b: seq<Byte>, off: nat, n: Node, i: nat, v: seq<Byte>)
    requires Ok(n) && At(b, off, Ser(n)) && i < |n.props| && |v| == |n.props[i].value| && PropsOk(n.props)
    ensures Became(b, off, n, n.(props := PropsWith(n.props, i, v)), off + 8 + PropStart(n.props, i) + 36, v)
  {
    hide SerProps, SerAll, Ser, Le32, At, Overwrite, PropsOk, AllOk, PropsWith, PropStart;
    HdrSer(b, off, n);
    OkParts(n);
    PropsReplaced(b, off + 8, n.props, i, v);
    var r := n.(props := PropsWith(n.props, i, v));
    var k := off + 8 + PropStart(n.props, i) + 36;
    PropsWithSize(n.props, i, v);
    OkParts(r);
    var counts := Le32(|n.props|) + Le32(|n.children|);
    AtPair(b, off, counts + SerProps(n.props), SerAll(n.children));
    SecondChanged(b, k, v, off, counts, SerProps(n.props), SerProps(r.props));
    FirstChanged(b, k, v, off, counts + SerProps(n.props), counts + SerProps(r.props), SerAll(n.children));
  }

  lemma PropsWithSize(ps: seq<Prop>, i: nat, v: seq<Byte>)
    requires i < |ps|
    ensures |PropsWith(ps, i, v)| == |ps|
  {
  }

  lemma BranchReplaced(b: seq<Byte>, off: nat, n: Node, j: nat, m: Node, k: nat, v: seq<Byte>)
    requires Ok(n) && At(b, off, Ser(n)) && AllOk(n.children) && j < |n.children| && Ok(n.children[j])
    requires Became(b, off + ChildrenStart(n) + ChildStart(n.children, j), n.children[j], m, k, v)
    ensures Became(b, off, n, n.(children := n.children[j := m]), k, v)
  {
    hide SerProps, SerAll, Ser, Le32, At, Overwrite, PropsOk, AllOk, ChildStart, ChildrenStart;
    HdrSer(b, off, n);
    OkParts(n);
    ChildFits(n.children, j);
    ChildReplaced(b, off + ChildrenStart(n), n.children, j, m, k, v);
    ChildrenHere(n);
    var r := n.(children := n.children[j := m]);
    OkParts(r);
    var counts := Le32(|n.props|) + Le32(|n.children|);
    SecondChanged(b, k, v, off, counts + SerProps(n.props), SerAll(n.children), SerAll(r.children));
  }

  lemma {:induction false} ChildStands(b: seq<Byte>, c: nat, ns: seq<Node>, i: nat)
    requires AllOk(ns) && At(b, c, SerAll(ns)) && i < |ns|
    ensures Ok(ns[i]) && At(b, c + ChildStart(ns, i), Ser(ns[i]))
    decreases |ns|
  {
    hide Ser, SerAll, At, AllOk, Ok;
    SerAllStep(ns);
    AtPair(b, c, Ser(ns[0]), SerAll(ns[1..]));
    if i > 0 {
      ChildStands(b, c + |Ser(ns[0])|, ns[1..], i - 1);
    }
  }

  /** Overwriting a value in the bytes is serializing the tree with that value replaced. */
  lemma {:induction false} ReplacedSer(b: seq<Byte>, off: nat, n: Node, at: seq<nat>, i: nat, v: seq<Byte>)
    requires Ok(n) && At(b, off, Ser(n)) && Inside(n, at) && Ok(NodeAt(n, at)) && i < |NodeAt(n, at).props|
    requires |v| == |NodeAt(n, at).props[i].value|
    ensures Became(b, off, n, Replaced(n, at, i, v), off + ValueStart(n, at, i), v)
    decreases |at|
  {
    hide SerProps, SerAll, Ser, At, Overwrite, PropsOk, AllOk, ChildStart, ChildrenStart, PropStart, Became, Ok;
    if at == [] {
      OkParts(n);
      RootReplaced(b, off, n, i, v);
    } else {
      var j, child := at[0], n.children[at[0]];
      HdrSer(b, off, n);
      ChildStands(b, off + ChildrenStart(n), n.children, j);
      ReplacedSer(b, off + ChildrenStart(n) + ChildStart(n.children, j), child, at[1..], i, v);
      BranchReplaced(b, off, n, j, Replaced(child, at[1..], i, v), off + ValueStart(n, at, i), v);
    }
  }

  // ------------------------------------------------------------ Setting a value

  /** What a set operation does to the bytes: overwrite the named value if it exists and has that length. */
  function SetSpec(b: seq<Byte>, components: seq<seq<Byte>>, name: seq<Byte>, v: seq<Byte>): Option<seq<Byte>> {
    match Walk(b, 0, components)
    case None => None
    case Some(off) =>
      match PropAt(b, off, name)
      case None => None
      case Some(p) => if p.1 != |v| || p.0 + p.1 > |b| then None else Some(Overwrite(b, p.0, v))
  }

  /** The outcome on the bytes matches the outcome on the tree. */
  ghost predicate Commuted(b: seq<Byte>, t: Node, sel: Option<seq<nat>>, name: seq<Byte>, v: seq<Byte>, outcome: Option<seq<Byte>>)
    requires Ok(t)
  {
    match sel
    case None => outcome == None
    case Some(at) =>
      && Inside(t, at)
      && match FirstProp(NodeAt(t, at).props, name)
         case None => outcome == None
         case Some(i) =>
           if |NodeAt(t, at).props[i].value| != |v| then outcome == None
           else && outcome.Some? && |outcome.value| == |b|
                && Ok(Replaced(t, at, i, v)) && At(outcome.value, 0, Ser(Replaced(t, at, i, v)))
                && |Ser(t)| <= |b| && outcome.value[|Ser(t)|..] == b[|Ser(t)|..]
  }

  /** A set operation on the bytes of a tree is the same operation on the tree: it fails exactly when the tree has no such node,
      no such property, or a value of another length; otherwise the bytes become those of the tree with that one value replaced. */
  lemma SetCommutes(b: seq<Byte>, t: Node, components: seq<seq<Byte>>, name: seq<Byte>, v: seq<Byte>)
    requires Ok(t) && Height(t) <= MAX_DEPTH + 1 && At(b, 0, Ser(t))
    ensures Commuted(b, t, Select(t, components), name, v, SetSpec(b, components, name, v))
  {
    hide Walk, Select, PropAt, Ser, At, Ok, Replaced, FirstProp, Overwrite, NodeStart;
    WalkSer(b, 0, t, components);
    if Select(t, components).Some? {
      var at := Select(t, components).value;
      SetAt(b, t, at, name, v);
    }
  }

  lemma SetAt(b: seq<Byte>, t: Node, at: seq<nat>, name: seq<Byte>, v: seq<Byte>)
    requires Ok(t) && At(b, 0, Ser(t)) && Inside(t, at) && Ok(NodeAt(t, at)) && At(b, NodeStart(t, at), Ser(NodeAt(t, at)))
    ensures var p := PropAt(b, NodeStart(t, at), name);
            Commuted(b, t, Some(at), name, v,
                     if p.None? || p.value.1 != |v| || p.value.0 + p.value.1 > |b| then None else Some(Overwrite(b, p.value.0, v)))
  {
    hide SerProps, SerAll, Ser, PropFrom, FirstProp, NodeStart, PropStart, PropsOk, AllOk, Ok, At, Overwrite, Replaced, Hdr;
    var n := NodeAt(t, at);
    var off := NodeStart(t, at);
    HdrSer(b, off, n);
    PropFromSer(b, off + 8, n.props, name);
    AtFits(b, 0, Ser(t));
    var i := FirstProp(n.props, name);
    if i.Some? && |n.props[i.value].value| == |v| {
      ReplacedSer(b, 0, t, at, i.value, v);
      Behind(b, off + 8 + PropStart(n.props, i.value) + 36, v, |Ser(t)|);
    } else if i.Some? {
      AtFits(b, off + 8 + PropStart(n.props, i.value) + 36, n.props[i.value].value);
    }
  }

  lemma Behind(b: seq<Byte>, k: nat, v: seq<Byte>, end: nat)
    requires k + |v| <= end <= |b|
    ensures Overwrite(b, k, v)[end..] == b[end..]
  {
  }

  // ------------------------------------------------------------ The walkers as the program runs them

  function OrZero(r: Option<nat>): nat { match r case None => 0 case Some(p) => p }

  method DtnPropsEnd(b: array<Byte>, off: nat) returns (p: nat)
    ensures p == OrZero(PropsEnd(b[..], off))
    ensures p == 0 <==> PropsEnd(b[..], off).None?
  {
    var h := Hdr(b[..], off);
    if h.None? {
      return 0;
    }
    p := off + 8;
    var i := 0;
    while i < h.value.0
      invariant 0 <= i <= h.value.0 && p >= 8
      invariant PropsEnd(b[..], off) == PropsEndFrom(b[..], p, h.value.0 - i)
    {
      if p + 36 > b.Length {
        return 0;
      }
      p := p + 36 + Round4(ValueLen(b[..], p));
      if p > b.Length {
        return 0;
      }
      i := i + 1;
    }
  }

  method DtnEnd(b: array<Byte>, off: nat, depth: nat) returns (p: nat)
    ensures p == OrZero(End(b[..], off, depth))
    ensures p == 0 <==> End(b[..], off, depth).None?
    decreases MAX_DEPTH + 1 - depth
  {
    hide PropsEnd;
    if depth > MAX_DEPTH {
      return 0;
    }
    var h := Hdr(b[..], off);
    if h.None? {
      return 0;
    }
    p := DtnPropsEnd(b, off);
    var i := 0;
    while p != 0 && i < h.value.1
      invariant 0 <= i <= h.value.1
      decreases h.value.1 - i
      invariant End(b[..], off, depth) == if p == 0 then None else EndAll(b[..], p, h.value.1 - i, depth)
    {
      p := DtnEnd(b, p, depth + 1);
      i := i + 1;
    }
  }

  method DtnProp(b: array<Byte>, off: nat, name: seq<Byte>) returns (found: Option<(nat, nat)>)
    ensures found == PropAt(b[..], off, name)
    ensures found.Some? ==> found.value.0 + found.value.1 <= b.Length
  {
    var h := Hdr(b[..], off);
    if h.None? {
      return None;
    }
    hide CString, ValueLen;
    var p: nat, i: nat := off + 8, 0;
    while i < h.value.0
      invariant i <= h.value.0
      invariant PropAt(b[..], off, name) == PropFrom(b[..], p, h.value.0 - i, name)
    {
      if p + 36 > b.Length {
        return None;
      }
      var l := ValueLen(b[..], p);
      if p + 36 + l > b.Length {
        return None;
      }
      if CString(b[p..p + NAME_LEN]) == name {
        assert b[..][p..p + NAME_LEN] == b[p..p + NAME_LEN];
        return Some((p + 36, l));
      }
      assert b[..][p..p + NAME_LEN] == b[p..p + NAME_LEN];
      p := p + 36 + Round4(l);
      i := i + 1;
    }
    return None;
  }

  /** The child loop of the path walker. */
  method DtnChild(b: array<Byte>, off: nat, component: seq<Byte>) returns (found: Option<nat>)
    ensures found == Child(b[..], off, component)
  {
    hide End, PropsEnd, PropAt;
    var h := Hdr(b[..], off);
    if h.None? {
      return None;
    }
    var c := DtnPropsEnd(b, off);
    var i := 0;
    while c != 0 && i < h.value.1
      invariant 0 <= i <= h.value.1
      decreases h.value.1 - i
      invariant Child(b[..], off, component) == if c == 0 then None else ChildFrom(b[..], c, h.value.1 - i, component)
    {
      var v := DtnProp(b, c, NAME);
      if v.Some? {
        assert b[v.value.0..v.value.0 + v.value.1] == b[..][v.value.0..v.value.0 + v.value.1];
      }
      if v.Some? && Names(b[v.value.0..v.value.0 + v.value.1], component) {
        return Some(c);
      }
      c := DtnEnd(b, c, 0);
      i := i + 1;
    }
    return None;
  }

  method DtnPath(b: array<Byte>, path: seq<Byte>) returns (node: Option<nat>)
    ensures node == Walk(b[..], 0, Components(path))
  {
    hide Child;
    var off, rest := 0, path;
    while rest != []
      invariant Walk(b[..], 0, Components(path)) == Walk(b[..], off, Components(rest))
      decreases |rest|
    {
      if rest[0] == SLASH {
        rest := rest[1..];
      } else {
        var k := SlashAt(rest);
        var component := rest[..k];
        var found := DtnChild(b, off, component);
        ComponentsStep(rest);
        if found.None? {
          return None;
        }
        off := found.value;
        rest := rest[k..];
      }
    }
    return Some(off);
  }

  lemma ComponentsStep(rest: seq<Byte>)
    requires rest != [] && rest[0] != SLASH
    ensures SlashAt(rest) > 0 && Components(rest) == [rest[..SlashAt(rest)]] + Components(rest[SlashAt(rest)..])
  {
  }

  /** Writes the cells of a value in place. */
  method SetCells(b: array<Byte>, path: seq<Byte>, prop: seq<Byte>, v: seq<Byte>) returns (ok: bool)
    modifies b
    ensures ok <==> SetSpec(old(b[..]), Components(path), prop, v).Some?
    ensures b[..] == if ok then SetSpec(old(b[..]), Components(path), prop, v).value else old(b[..])
  {
    hide Walk, PropAt;
    var node := DtnPath(b, path);
    if node.None? {
      return false;
    }
    var p := DtnProp(b, node.value, prop);
    if p.None? || p.value.1 != |v| {
      return false;
    }
    ghost var before := b[..];
    var at := p.value.0;
    for i := 0 to |v|
      invariant forall j :: 0 <= j < b.Length ==> b[j] == if at <= j < at + i then v[j - at] else before[j]
    {
      b[at + i] := v[i];
    }
    assert b[..] == Overwrite(before, at, v);
    return true;
  }

  /** A four-byte cell. */
  /** Where a set writes: the first property of that name in the node at the path. */
  function ValueAt(b: seq<Byte>, path: seq<Byte>, name: seq<Byte>): Option<nat> {
    match Walk(b, 0, Components(path))
    case None => None
    case Some(off) => match PropAt(b, off, name) case None => None case Some(p) => Some(p.0)
  }

  lemma WrittenWord(b: seq<Byte>, k: nat, v: seq<Byte>, at: nat, w: Word)
    requires k + |v| <= |b| && at + 4 <= |v| && v[at..at + 4] == Le32(w)
    ensures Ld32(Overwrite(b, k, v), k + at) == w
  {
    var r := Overwrite(b, k, v);
    assert r[k..k + |v|] == v;
    forall j | 0 <= j < 4
      ensures r[k + at + j] == Le32(w)[j]
    {
      assert r[k..k + |v|][at + j] == v[at..at + 4][j];
    }
  }

  method SetU32(b: array<Byte>, path: seq<Byte>, prop: seq<Byte>, v: Word) returns (ok: bool)
    modifies b
    ensures ok <==> SetSpec(old(b[..]), Components(path), prop, Le32(v)).Some?
    ensures b[..] == if ok then SetSpec(old(b[..]), Components(path), prop, Le32(v)).value else old(b[..])
    ensures ok ==> var at := ValueAt(old(b[..]), path, prop);
                   at.Some? && at.value + 4 <= b.Length && Ld32(b[..], at.value) == v
  {
    hide Walk, PropAt, Components;
    ghost var before := b[..];
    ok := SetCells(b, path, prop, Le32(v));
    if ok {
      WrittenWord(before, ValueAt(before, path, prop).value, Le32(v), 0, v);
    }
  }

  /** An eight-byte register entry: base and size. */
  method SetReg(b: array<Byte>, path: seq<Byte>, prop: seq<Byte>, base: Word, size: Word) returns (ok: bool)
    modifies b
    ensures ok <==> SetSpec(old(b[..]), Components(path), prop, Le32(base) + Le32(size)).Some?
    ensures b[..] == if ok then SetSpec(old(b[..]), Components(path), prop, Le32(base) + Le32(size)).value else old(b[..])
    ensures ok ==> var at := ValueAt(old(b[..]), path, prop);
                   at.Some? && at.value + 8 <= b.Length && Ld32(b[..], at.value) == base && Ld32(b[..], at.value + 4) == size
  {
    hide Walk, PropAt, Components;
    ghost var before, v := b[..], Le32(base) + Le32(size);
    ok := SetCells(b, path, prop, Le32(base) + Le32(size));
    if ok {
      assert v[0..4] == Le32(base) && v[4..8] == Le32(size);
      WrittenWord(before, ValueAt(before, path, prop).value, v, 0, base);
      WrittenWord(before, ValueAt(before, path, prop).value, v, 4, size);
    }
  }
}
