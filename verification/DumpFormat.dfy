/** The byte format of dumped vectors. */
module DumpFormat {
  import opened Functions
  import opened Cubes
  import opened Expressions

  type Byte = x: nat | x < 256

  /** An internal node: its variable, and symbolic addresses of its children; neg is the ELSE edge's
      inverter. */
  datatype NodeRec = NodeRec(varid: nat, thn: nat, els: nat, neg: bool)

  /** An element: the symbolic address of its node and its two modification bits; no dump sets inv. */
  datatype EdgeRec = VoidRec | EdgeRec(id: nat, neg: bool, inv: bool)

  /** bdd_dump_int and bdd_restore_int */
  function IntBytes(n: nat): (r: seq<Byte>)
    ensures |r| == 4
  {
    [n / 0x100_0000 % 256, n / 0x1_0000 % 256, n / 0x100 % 256, n % 256]
  }

  function Number(hi: nat, mid: nat, lo: nat): nat {
    hi * 0x1_0000 + mid * 256 + lo
  }

  /** n << 24 */
  function Shifted(n: nat): nat {
    n * 0x100_0000
  }

  function IntAt(b: seq<Byte>, i: nat): nat
    requires i + 4 <= |b|
  {
    Shifted(b[i]) + Number(b[i + 1], b[i + 2], b[i + 3])
  }

  /** b |= bit << 6 */
  function SetBit6(b: Byte, bit: bool): Byte {
    if bit && b / 64 % 2 == 0 then b + 64 else b
  }

  /** b |= bit << 7 */
  function SetBit7(b: Byte, bit: bool): Byte {
    if bit && b / 128 == 0 then b + 128 else b
  }

  function NodeBytes(r: NodeRec): (b: seq<Byte>)
    ensures |b| == 8
  {
    [r.varid / 256 % 256, r.varid % 256,
     r.thn / 0x1_0000 % 256, r.thn / 256 % 256, r.thn % 256,
     SetBit6(r.els / 0x1_0000 % 256, r.neg), r.els / 256 % 256, r.els % 256]
  }

  function NodeAt(b: seq<Byte>, i: nat): NodeRec
    requires i + 8 <= |b|
  {
    NodeRec(Number(0, b[i], b[i + 1]),
            Number(b[i + 2] % 64, b[i + 3], b[i + 4]),
            Number(b[i + 5] % 64, b[i + 6], b[i + 7]),
            b[i + 5] / 64 % 2 == 1)
  }

  function EdgeBytes(r: EdgeRec): (b: seq<Byte>)
    ensures |b| == 3
  {
    match r
    case VoidRec => [0xC0, 0, 0]
    case EdgeRec(id, neg, inv) => [SetBit6(SetBit7(id / 0x1_0000 % 256, inv), neg), id / 256 % 256, id % 256]
  }

  function EdgeAt(b: seq<Byte>, i: nat): EdgeRec
    requires i + 3 <= |b|
  {
    var id := Number(b[i] % 64, b[i + 1], b[i + 2]);
    var neg, inv := b[i] / 64 % 2 == 1, b[i] / 128 == 1;
    if inv && neg && id == 0 then VoidRec else EdgeRec(id, neg, inv)
  }

  /** The fields are wide enough: 16 bits for a variable, 22 for an address. */
  predicate NodeFits(r: NodeRec) {
    r.varid < 0x1_0000 && r.thn < 0x40_0000 && r.els < 0x40_0000
  }

  predicate EdgeFits(r: EdgeRec) {
    r.EdgeRec? ==> r.id < 0x40_0000 && !(r.inv && r.neg && r.id == 0)
  }

  /** A number by its bytes. */
  lemma ThreeBytes(n: nat)
    requires n < 0x100_0000
    ensures n / 0x1_0000 % 256 == n / 0x1_0000
    ensures Number(n / 0x1_0000, n / 256 % 256, n % 256) == n
    ensures n < 0x40_0000 ==> n / 0x1_0000 < 64
  {
    assert n / 256 / 256 == n / 0x1_0000;
  }

  lemma IntRound(n: nat, b: seq<Byte>, i: nat)
    requires n < 0x1_0000_0000 && i + 4 <= |b| && b[i..i + 4] == IntBytes(n)
    ensures IntAt(b, i) == n
  {
    var c := b[i..i + 4];
    assert b[i] == c[0] && b[i + 1] == c[1] && b[i + 2] == c[2] && b[i + 3] == c[3];
    TopByte(n);
    ThreeBytes(n % 0x100_0000);
    LowBytes(n);
  }

  lemma TopByte(n: nat)
    requires n < 0x1_0000_0000
    ensures n / 0x100_0000 % 256 == n / 0x100_0000 && Shifted(n / 0x100_0000) + n % 0x100_0000 == n
  {
  }

  lemma LowBytes(n: nat)
    ensures n % 0x100_0000 / 0x1_0000 == n / 0x1_0000 % 256
    ensures n % 0x100_0000 / 256 % 256 == n / 256 % 256
    ensures n % 0x100_0000 % 256 == n % 256
  {
    var q, r := n / 0x100_0000, n % 0x100_0000;
    HighPart(q * 256, r);
    LowPart(q * 0x1_0000, r);
    LowPart(q, r / 0x1_0000);
    LowPart(q * 256, r / 256);
    Within(r);
    assert n == (q * 256) * 0x1_0000 + r && n == (q * 0x1_0000) * 256 + r;
    assert n / 0x1_0000 == q * 256 + r / 0x1_0000;
    assert n / 256 == (q * 256) * 256 + r / 256;
  }

  lemma Within(r: nat)
    requires r < 0x100_0000
    ensures r / 0x1_0000 < 256
  {
  }

  lemma HighPart(q: nat, r: nat)
    ensures (q * 0x1_0000 + r) / 0x1_0000 == q + r / 0x1_0000
  {
  }

  lemma LowPart(q: nat, r: nat)
    ensures (q * 256 + r) / 256 == q + r / 256 && (q * 256 + r) % 256 == r % 256
  {
  }

  lemma Bit6(b: Byte, bit: bool)
    requires b < 64
    ensures SetBit6(b, bit) % 64 == b && SetBit6(b, bit) / 128 == 0 && (SetBit6(b, bit) / 64 % 2 == 1 <==> bit)
  {
  }

  /** An address of 22 bits with the inverter bit above it. */
  lemma AddressRound(n: nat, bit: bool)
    requires n < 0x40_0000
    ensures var hi := SetBit6(n / 0x1_0000 % 256, bit);
      Number(hi % 64, n / 256 % 256, n % 256) == n && hi / 128 == 0 && (hi / 64 % 2 == 1 <==> bit)
  {
    ThreeBytes(n);
    Bit6(n / 0x1_0000, bit);
  }

  lemma BothBits(b: Byte, neg: bool, inv: bool)
    requires b < 64
    ensures var c := SetBit6(SetBit7(b, inv), neg);
      c % 64 == b && (c / 128 == 1 <==> inv) && (c / 64 % 2 == 1 <==> neg)
  {
  }

  /** An address of 22 bits with both bits above it. */
  lemma BothBitsRound(n: nat, neg: bool, inv: bool)
    requires n < 0x40_0000
    ensures var hi := SetBit6(SetBit7(n / 0x1_0000 % 256, inv), neg);
      Number(hi % 64, n / 256 % 256, n % 256) == n && (hi / 128 == 1 <==> inv) && (hi / 64 % 2 == 1 <==> neg)
  {
    ThreeBytes(n);
    BothBits(n / 0x1_0000, neg, inv);
  }

  lemma PlainRound(n: nat)
    requires n < 0x40_0000
    ensures Number(n / 0x1_0000 % 256 % 64, n / 256 % 256, n % 256) == n
    ensures n < 0x1_0000 ==> Number(0, n / 256 % 256, n % 256) == n
  {
    ThreeBytes(n);
    hide Number;
    NoHighByte(n);
  }

  lemma NoHighByte(n: nat)
    ensures n < 0x1_0000 ==> n / 0x1_0000 == 0
  {
  }

  lemma Slice(b: seq<Byte>, i: nat, n: nat, k: nat)
    requires i + n <= |b| && k < n
    ensures b[i..i + n][k] == b[i + k]
  {
  }

  /** What has been dumped of a node is restored. */
  lemma NodeRound(r: NodeRec, b: seq<Byte>, i: nat)
    requires NodeFits(r) && i + 8 <= |b| && b[i..i + 8] == NodeBytes(r)
    ensures NodeAt(b, i) == r
  {
    hide Number, SetBit6;
    Slice(b, i, 8, 0);
    Slice(b, i, 8, 1);
    Slice(b, i, 8, 2);
    Slice(b, i, 8, 3);
    Slice(b, i, 8, 4);
    Slice(b, i, 8, 5);
    Slice(b, i, 8, 6);
    Slice(b, i, 8, 7);
    PlainRound(r.varid);
    PlainRound(r.thn);
    AddressRound(r.els, r.neg);
  }

  /** Exactly the records whose fields are wide enough survive; a larger address is cut to 22 bits. */
  lemma NodeRoundIff(r: NodeRec)
    ensures NodeAt(NodeBytes(r), 0) == r <==> NodeFits(r)
  {
    var b := NodeBytes(r);
    if NodeFits(r) {
      assert b[0..8] == b;
      NodeRound(r, b, 0);
    }
    NumberBound(b[2] % 64, b[3], b[4]);
    NumberBound(b[5] % 64, b[6], b[7]);
    NumberBound(0, b[0], b[1]);
  }

  lemma NumberBound(hi: nat, mid: Byte, lo: Byte)
    requires hi < 64
    ensures Number(hi, mid, lo) < 0x40_0000 && (hi == 0 ==> Number(hi, mid, lo) < 0x1_0000)
  {
  }

  lemma EdgeRound(r: EdgeRec, b: seq<Byte>, i: nat)
    requires EdgeFits(r) && i + 3 <= |b| && b[i..i + 3] == EdgeBytes(r)
    ensures EdgeAt(b, i) == r
  {
    hide Number, SetBit6, SetBit7;
    Slice(b, i, 3, 0);
    Slice(b, i, 3, 1);
    Slice(b, i, 3, 2);
    if r.EdgeRec? {
      BothBitsRound(r.id, r.neg, r.inv);
    } else {
      PlainRound(0);
    }
  }

  /** An edge record survives exactly if its address fits; the void record always does. */
  lemma EdgeRoundIff(r: EdgeRec)
    ensures EdgeAt(EdgeBytes(r), 0) == r <==> EdgeFits(r)
  {
    var b := EdgeBytes(r);
    if EdgeFits(r) {
      assert b[0..3] == b;
      EdgeRound(r, b, 0);
    }
    NumberBound(b[0] % 64, b[1], b[2]);
  }

  /** Bytes read as one number, the most significant byte first. */
  function BigEndian(b: seq<Byte>): nat {
    if b == [] then 0 else 256 * BigEndian(b[..|b| - 1]) + b[|b| - 1]
  }

  /** What a node record is as a number: from the top 16 bits of the variable, 24 bits of the THEN
      address and 24 bits of the ELSE address with its inverter in bit 22. */
  function NodeNumber(r: NodeRec): nat {
    r.varid * 0x1_0000_0000_0000 + r.thn * 0x100_0000 + BitNumber(r.neg, 0x40_0000) + r.els
  }

  /** An element: 22 bits of the address below the inverter in bit 22 and the inverted-input bit in bit
      23; void is both bits and address 0. */
  function EdgeNumber(r: EdgeRec): nat {
    match r
    case VoidRec => 0xC0_0000
    case EdgeRec(id, neg, inv) => BitNumber(inv, 0x80_0000) + BitNumber(neg, 0x40_0000) + id
  }

  function BitNumber(bit: bool, weight: nat): nat {
    if bit then weight else 0
  }

  lemma BigEndianTwo(b: seq<Byte>)
    requires |b| >= 2
    ensures BigEndian(b) == 0x1_0000 * BigEndian(b[..|b| - 2]) + Number(0, b[|b| - 2], b[|b| - 1])
  {
    var c := b[..|b| - 1];
    assert c[..|c| - 1] == b[..|b| - 2];
  }

  lemma BigEndianThree(b: seq<Byte>)
    requires |b| >= 3
    ensures BigEndian(b) == 0x100_0000 * BigEndian(b[..|b| - 3]) + Number(b[|b| - 3], b[|b| - 2], b[|b| - 1])
  {
    BigEndianTwo(b);
    var c := b[..|b| - 2];
    assert c[..|c| - 1] == b[..|b| - 3];
  }

  lemma IntLayout(n: nat)
    requires n < 0x1_0000_0000
    ensures BigEndian(IntBytes(n)) == n
  {
    var b := IntBytes(n);
    BigEndianThree(b);
    assert b[..1] == [b[0]] && b[..1][..0] == [];
    IntRound(n, b, 0);
  }

  /** 22 bits and one or two bits above them. */
  lemma AddressLayout(n: nat, neg: bool, inv: bool)
    requires n < 0x40_0000
    ensures Number(SetBit6(SetBit7(n / 0x1_0000 % 256, inv), neg), n / 256 % 256, n % 256)
         == BitNumber(inv, 0x80_0000) + BitNumber(neg, 0x40_0000) + n
  {
    ThreeBytes(n);
  }

  lemma NodeLayout(r: NodeRec)
    requires NodeFits(r)
    ensures BigEndian(NodeBytes(r)) == NodeNumber(r)
  {
    hide Number, SetBit6, BigEndian, BitNumber;
    var b := NodeBytes(r);
    BigEndianThree(b);
    BigEndianThree(b[..5]);
    assert b[..5][..2] == b[..2];
    TwoLayout(b[..2]);
    ThreeBytes(r.varid);
    NoHighByte(r.varid);
    ThreeBytes(r.thn);
    AddressLayout(r.els, r.neg, false);
    Plain(r.varid, r.thn, r.els);
  }

  lemma TwoLayout(b: seq<Byte>)
    requires |b| == 2
    ensures BigEndian(b) == Number(0, b[0], b[1])
  {
    BigEndianTwo(b);
    assert b[..0] == [];
  }

  lemma Plain(v: nat, t: nat, e: nat)
    requires v < 0x1_0000 && t < 0x40_0000
    ensures v / 256 % 256 == v / 256 && t / 0x1_0000 % 256 == t / 0x1_0000
    ensures SetBit7(e / 0x1_0000 % 256, false) == e / 0x1_0000 % 256
    ensures BitNumber(false, 0x80_0000) == 0
  {
  }

  lemma EdgeLayout(r: EdgeRec)
    requires r.EdgeRec? ==> r.id < 0x40_0000
    ensures BigEndian(EdgeBytes(r)) == EdgeNumber(r)
  {
    hide SetBit6, SetBit7, BigEndian, BitNumber;
    var b := EdgeBytes(r);
    BigEndianThree(b);
    assert b[..0] == [] && BigEndian([]) == 0 by { EmptyLayout(); }
    if r.EdgeRec? {
      AddressLayout(r.id, r.neg, r.inv);
    }
  }

  lemma EmptyLayout()
    ensures BigEndian([]) == 0
  {
  }

  /** All node records, all edge records. */
  function NodesBytes(rs: seq<NodeRec>): (b: seq<Byte>)
    ensures |b| == 8 * |rs|
  {
    if rs == [] then [] else NodesBytes(rs[..|rs| - 1]) + NodeBytes(rs[|rs| - 1])
  }

  function EdgesBytes(rs: seq<EdgeRec>): (b: seq<Byte>)
    ensures |b| == 3 * |rs|
  {
    if rs == [] then [] else EdgesBytes(rs[..|rs| - 1]) + EdgeBytes(rs[|rs| - 1])
  }

  function Header(nodes: nat, size: nat, vars: nat): (b: seq<Byte>)
    ensures |b| == 12
  {
    IntBytes(nodes) + IntBytes(size) + IntBytes(vars)
  }

  /** The whole dump. */
  function File(nodes: seq<NodeRec>, edges: seq<EdgeRec>, vars: nat): (b: seq<Byte>)
    ensures |b| == 12 + 8 * |nodes| + 3 * |edges|
  {
    Header(|nodes|, |edges|, vars) + NodesBytes(nodes) + EdgesBytes(edges)
  }

  lemma FrontSlice(a: seq<Byte>, b: seq<Byte>, i: nat, j: nat)
    requires i <= j <= |a|
    ensures (a + b)[i..j] == a[i..j]
  {
  }

  lemma BackSlice(a: seq<Byte>, b: seq<Byte>)
    ensures (a + b)[|a|..|a| + |b|] == b
  {
  }

  lemma {:induction false} NodesAt(rs: seq<NodeRec>, k: nat)
    requires k < |rs|
    ensures NodesBytes(rs)[8 * k..8 * k + 8] == NodeBytes(rs[k])
  {
    var n := |rs| - 1;
    if k < n {
      NodesAt(rs[..n], k);
      FrontSlice(NodesBytes(rs[..n]), NodeBytes(rs[n]), 8 * k, 8 * k + 8);
    } else {
      BackSlice(NodesBytes(rs[..n]), NodeBytes(rs[n]));
    }
  }

  lemma {:induction false} EdgesAt(rs: seq<EdgeRec>, k: nat)
    requires k < |rs|
    ensures EdgesBytes(rs)[3 * k..3 * k + 3] == EdgeBytes(rs[k])
  {
    hide EdgeBytes;
    var n := |rs| - 1;
    if k < n {
      EdgesAt(rs[..n], k);
      FrontSlice(EdgesBytes(rs[..n]), EdgeBytes(rs[n]), 3 * k, 3 * k + 3);
    } else {
      BackSlice(EdgesBytes(rs[..n]), EdgeBytes(rs[n]));
    }
  }

  /** Slices of a concatenation. */
  lemma MiddleAt(a: seq<Byte>, b: seq<Byte>, c: seq<Byte>, i: nat, n: nat)
    requires i + n <= |b|
    ensures |a| + i + n <= |a + b + c| && (a + b + c)[|a| + i..|a| + i + n] == b[i..i + n]
  {
  }

  lemma LastAt(a: seq<Byte>, b: seq<Byte>, c: seq<Byte>, i: nat, n: nat)
    requires i + n <= |c|
    ensures |a + b| + i + n <= |a + b + c| && (a + b + c)[|a + b| + i..|a + b| + i + n] == c[i..i + n]
  {
  }

  /** The three words of the header. */
  lemma FileHeader(nodes: seq<NodeRec>, edges: seq<EdgeRec>, vars: nat)
    requires |nodes| < 0x1_0000_0000 && |edges| < 0x1_0000_0000
    ensures var b := File(nodes, edges, vars);
      && IntAt(b, 0) == BigEndian(b[0..4]) == |nodes| && IntAt(b, 4) == BigEndian(b[4..8]) == |edges|
      && (vars < 0x1_0000_0000 ==> IntAt(b, 8) == BigEndian(b[8..12]) == vars)
  {
    hide IntBytes, IntAt, BigEndian;
    var b, h := File(nodes, edges, vars), Header(|nodes|, |edges|, vars);
    var rest := NodesBytes(nodes) + EdgesBytes(edges);
    MiddleAt([], h, rest, 0, 4);
    MiddleAt([], h, rest, 4, 4);
    MiddleAt([], h, rest, 8, 4);
    assert b == [] + h + rest;
    assert h[0..4] == IntBytes(|nodes|) && h[4..8] == IntBytes(|edges|) && h[8..12] == IntBytes(vars);
    IntRound(|nodes|, b, 0);
    IntRound(|edges|, b, 4);
    IntLayout(|nodes|);
    IntLayout(|edges|);
    if vars < 0x1_0000_0000 {
      IntRound(vars, b, 8);
      IntLayout(vars);
    }
  }

  /** The layout of a dump, in numbers. */
  ghost predicate LaidOut(b: seq<Byte>, nodes: seq<NodeRec>, edges: seq<EdgeRec>, vars: nat) {
    && |b| == 12 + 8 * |nodes| + 3 * |edges|
    && BigEndian(b[0..4]) == |nodes| && BigEndian(b[4..8]) == |edges| && BigEndian(b[8..12]) == vars
    && (forall k {:trigger nodes[k]} :: 0 <= k < |nodes| && NodeFits(nodes[k]) ==>
          BigEndian(b[12 + 8 * k..20 + 8 * k]) == NodeNumber(nodes[k]))
    && (forall k {:trigger edges[k]} :: 0 <= k < |edges| && (edges[k].EdgeRec? ==> edges[k].id < 0x40_0000) ==>
          BigEndian(b[12 + 8 * |nodes| + 3 * k..15 + 8 * |nodes| + 3 * k]) == EdgeNumber(edges[k]))
  }

  lemma FileLayout(nodes: seq<NodeRec>, edges: seq<EdgeRec>, vars: nat)
    requires |nodes| < 0x1_0000_0000 && |edges| < 0x1_0000_0000 && vars < 0x1_0000_0000
    ensures LaidOut(File(nodes, edges, vars), nodes, edges, vars)
  {
    hide BigEndian, Header, NodeBytes, EdgeBytes, IntAt, NodeNumber, EdgeNumber;
    var h := Header(|nodes|, |edges|, vars);
    FileHeader(nodes, edges, vars);
    forall k | 0 <= k < |nodes| && NodeFits(nodes[k])
      ensures BigEndian(File(nodes, edges, vars)[12 + 8 * k..20 + 8 * k]) == NodeNumber(nodes[k])
    {
      NodesAt(nodes, k);
      MiddleAt(h, NodesBytes(nodes), EdgesBytes(edges), 8 * k, 8);
      NodeLayout(nodes[k]);
    }
    forall k | 0 <= k < |edges| && (edges[k].EdgeRec? ==> edges[k].id < 0x40_0000)
      ensures BigEndian(File(nodes, edges, vars)[12 + 8 * |nodes| + 3 * k..15 + 8 * |nodes| + 3 * k]) == EdgeNumber(edges[k])
    {
      EdgesAt(edges, k);
      LastAt(h, NodesBytes(nodes), EdgesBytes(edges), 3 * k, 3);
      EdgeLayout(edges[k]);
    }
  }

  lemma FileNode(nodes: seq<NodeRec>, edges: seq<EdgeRec>, vars: nat, k: nat)
    requires k < |nodes| && NodeFits(nodes[k])
    ensures 12 + 8 * k + 8 <= |File(nodes, edges, vars)| && NodeAt(File(nodes, edges, vars), 12 + 8 * k) == nodes[k]
  {
    NodesAt(nodes, k);
    MiddleAt(Header(|nodes|, |edges|, vars), NodesBytes(nodes), EdgesBytes(edges), 8 * k, 8);
    NodeRound(nodes[k], File(nodes, edges, vars), 12 + 8 * k);
  }

  lemma FileEdge(nodes: seq<NodeRec>, edges: seq<EdgeRec>, vars: nat, k: nat)
    requires k < |edges| && EdgeFits(edges[k])
    ensures 12 + 8 * |nodes| + 3 * k + 3 <= |File(nodes, edges, vars)|
    ensures EdgeAt(File(nodes, edges, vars), 12 + 8 * |nodes| + 3 * k) == edges[k]
  {
    EdgesAt(edges, k);
    LastAt(Header(|nodes|, |edges|, vars), NodesBytes(nodes), EdgesBytes(edges), 3 * k, 3);
    EdgeRound(edges[k], File(nodes, edges, vars), 12 + 8 * |nodes| + 3 * k);
  }

  /** Addresses 0 and 1 are the constants, 2 is not in use; every node refers to earlier addresses. */
  predicate Backward(rs: seq<NodeRec>) {
    forall k {:trigger rs[k]} :: 0 <= k < |rs| ==>
      rs[k].thn < k + 3 && rs[k].els < k + 3 && rs[k].thn != 2 && rs[k].els != 2
  }

  /** What the addresses stand for. */
  ghost function Fns(rs: seq<NodeRec>): (fs: seq<Fn>)
    requires Backward(rs)
    ensures |fs| == |rs| + 3
  {
    if rs == [] then [iset{}, True(), True()]
    else
      var fs := Fns(rs[..|rs| - 1]);
      var r := rs[|rs| - 1];
      fs + [Ite(Lit(r.varid, true), fs[r.thn], NotIf(fs[r.els], r.neg))]
  }

  ghost function EdgeFn(fs: seq<Fn>, r: EdgeRec): Fn
    requires r.EdgeRec? && r.id < |fs| && !r.inv
  {
    NotIf(fs[r.id], r.neg)
  }

  lemma FnsMore(rs: seq<NodeRec>, r: NodeRec)
    requires Backward(rs) && r.thn < |rs| + 3 && r.els < |rs| + 3 && r.thn != 2 && r.els != 2
    ensures Backward(rs + [r])
    ensures Fns(rs + [r]) == Fns(rs) + [Ite(Lit(r.varid, true), Fns(rs)[r.thn], NotIf(Fns(rs)[r.els], r.neg))]
  {
    var all := rs + [r];
    assert all[..|rs|] == rs;
    forall k | 0 <= k < |all|
      ensures all[k].thn < k + 3 && all[k].els < k + 3 && all[k].thn != 2 && all[k].els != 2
    {
      if k < |rs| {
        assert all[k] == rs[k];
      }
    }
  }
}
