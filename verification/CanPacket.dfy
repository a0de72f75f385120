/** CAN packets: the two headers as bit fields in the big-endian layout of the SPARC, the bytes the controller chip
    sees, the node address, and the chip's acceptance filter.
*/
module CanPacket {
  import opened Words

  /** The standard header: 1, 5, 5, 1 and 4 bits. */
  datatype CanFields = CanFields(lpriority: nat, dest: nat, src: nat, remote: nat, length: nat) {
    predicate Valid() {
      lpriority < 2 && dest < 32 && src < 32 && remote < 2 && length < 16
    }
  }

  type CanHeader = h: CanFields | h.Valid() witness CanFields(0, 0, 0, 0, 0)

  /** The extended header: 1, 3, 6, 6, 6 and 10 bits. */
  datatype ExtFields =
    ExtFields(xpriority: nat, kind: nat, cluster: nat, modno: nat, node: nat, object_: nat)
  {
    predicate Valid() {
      xpriority < 2 && kind < 8 && cluster < 64 && modno < 64 && node < 64 && object_ < 1024
    }
  }

  type ExtHeader = e: ExtFields | e.Valid() witness ExtFields(0, 0, 0, 0, 0, 0)

  type Word = w: nat | w < WORD32

  datatype Packet = Packet(timestamp: nat, can: CanHeader, ext: ExtHeader, dat: Word)

  const TYPE_RO := 0
  const TYPE_WO := 1
  const TYPE_WNA := 2
  const TYPE_DAT := 3
  const TYPE_ACK := 4
  const TYPE_NAK := 6

  const OBJ_FORCE_DISCONN := 0x3ef
  const OBJ_CONSOLE_CONNECT := 0x3f0
  const OBJ_CONSOLE_DISCONN := 0x3f1

  /** UNPACK_NODE, UNPACK_MODULE, UNPACK_CLUSTER. */
  function UnpackNode(id: nat): nat {
    id % 32
  }

  function UnpackModule(id: nat): nat {
    id / 64 % 32
  }

  function UnpackCluster(id: nat): nat {
    id / 4096 % 32
  }

  // ---------------------------------------------------------------------------------------------------------------
  // Words and bytes.

  /** Two neighbouring fields, the lower one having `base` values. */
  lemma FieldsSplit(high: nat, low: nat, base: nat)
    requires low < base && base in [2, 8, 16, 32, 64, 256, 1024]
    ensures (high * base + low) / base == high && (high * base + low) % base == low
  {
    if base == 2 {
    } else if base == 8 {
    } else if base == 16 {
    } else if base == 32 {
    } else if base == 64 {
    } else if base == 256 {
    } else {
      assert base == 1024;
    }
  }

  function PackExt(e: ExtHeader): (w: Word) {
    ((((e.xpriority * 8 + e.kind) * 64 + e.cluster) * 64 + e.modno) * 64 + e.node) * 1024 + e.object_
  }

  function UnpackExt(w: Word): ExtHeader {
    var w1 := w / 1024;
    var w2 := w1 / 64;
    var w3 := w2 / 64;
    var w4 := w3 / 64;
    ExtFields(w4 / 8, w4 % 8, w3 % 64, w2 % 64, w1 % 64, w % 1024)
  }

  function PackCan(h: CanHeader): (w: nat)
    ensures w < 0x1_0000
  {
    (((h.lpriority * 32 + h.dest) * 32 + h.src) * 2 + h.remote) * 16 + h.length
  }

  function UnpackCan(w: nat): CanHeader
    requires w < 0x1_0000
  {
    var w1 := w / 16;
    var w2 := w1 / 2;
    var w3 := w2 / 32;
    CanFields(w3 / 32, w3 % 32, w2 % 32, w1 % 2, w % 16)
  }

  lemma ExtRoundTrip(e: ExtHeader)
    ensures UnpackExt(PackExt(e)) == e
  {
    var w4 := e.xpriority * 8 + e.kind;
    var w3 := w4 * 64 + e.cluster;
    var w2 := w3 * 64 + e.modno;
    var w1 := w2 * 64 + e.node;
    FieldsSplit(e.xpriority, e.kind, 8);
    FieldsSplit(w4, e.cluster, 64);
    FieldsSplit(w3, e.modno, 64);
    FieldsSplit(w2, e.node, 64);
    FieldsSplit(w1, e.object_, 1024);
  }

  /** Where the fields are in the word: priority in the highest bit, then type, cluster, module, node and object. */
  lemma ExtLayout(e: ExtHeader)
    ensures var w := PackExt(e);
            && w / 0x8000_0000 == e.xpriority && w / 0x1000_0000 % 8 == e.kind && w / 0x40_0000 % 64 == e.cluster
            && w / 0x1_0000 % 64 == e.modno && w / 0x400 % 64 == e.node && w % 0x400 == e.object_
  {
    var w4 := e.xpriority * 8 + e.kind;
    var w3 := w4 * 64 + e.cluster;
    var w2 := w3 * 64 + e.modno;
    var w1 := w2 * 64 + e.node;
    var w := w1 * 1024 + e.object_;
    assert w / 0x400 == w1 && w % 0x400 == e.object_;
    assert w / 0x1_0000 == w2 && w1 % 64 == e.node;
    assert w / 0x40_0000 == w3 && w2 % 64 == e.modno;
    assert w / 0x1000_0000 == w4 && w3 % 64 == e.cluster;
    assert w / 0x8000_0000 == e.xpriority && w4 % 8 == e.kind;
  }

  /** All but priority and type are in the low 28 bits, which so tell addresses and objects apart. */
  lemma AddressBits(e: ExtHeader, f: ExtHeader)
    ensures PackExt(e) % 0x1000_0000 == PackExt(f) % 0x1000_0000 <==>
            e.cluster == f.cluster && e.modno == f.modno && e.node == f.node && e.object_ == f.object_
  {
    LowWord(e);
    LowWord(f);
    LowFields(e);
    LowFields(f);
  }

  function Low(e: ExtHeader): nat {
    ((e.cluster * 64 + e.modno) * 64 + e.node) * 1024 + e.object_
  }

  lemma LowWord(e: ExtHeader)
    ensures PackExt(e) % 0x1000_0000 == Low(e)
  {
    assert PackExt(e) == (e.xpriority * 8 + e.kind) * 0x1000_0000 + Low(e);
  }

  lemma LowFields(e: ExtHeader)
    ensures var w := Low(e);
            && w % 0x400 == e.object_ && w / 0x400 % 64 == e.node && w / 0x400 / 64 % 64 == e.modno
            && w / 0x400 / 64 / 64 == e.cluster
  {
    var w2 := e.cluster * 64 + e.modno;
    var w1 := w2 * 64 + e.node;
    FieldsSplit(w1, e.object_, 1024);
    FieldsSplit(w2, e.node, 64);
    FieldsSplit(e.cluster, e.modno, 64);
  }

  lemma CanLayout(h: CanHeader)
    ensures var w := PackCan(h);
            && w / 0x8000 == h.lpriority && w / 0x400 % 32 == h.dest && w / 0x20 % 32 == h.src
            && w / 0x10 % 2 == h.remote && w % 0x10 == h.length
  {
    var w3 := h.lpriority * 32 + h.dest;
    var w2 := w3 * 32 + h.src;
    var w1 := w2 * 2 + h.remote;
    var w := w1 * 16 + h.length;
    assert w / 0x10 == w1 && w % 0x10 == h.length;
    assert w / 0x20 == w2 && w1 % 2 == h.remote;
    assert w / 0x400 == w3 && w2 % 32 == h.src;
    assert w / 0x8000 == h.lpriority && w3 % 32 == h.dest;
  }

  lemma WordRoundTrip(w: Word)
    ensures PackExt(UnpackExt(w)) == w
  {
  }

  lemma CanRoundTrip(h: CanHeader)
    ensures UnpackCan(PackCan(h)) == h
  {
    var w3 := h.lpriority * 32 + h.dest;
    var w2 := w3 * 32 + h.src;
    var w1 := w2 * 2 + h.remote;
    FieldsSplit(h.lpriority, h.dest, 32);
    FieldsSplit(w3, h.src, 32);
    FieldsSplit(w2, h.remote, 2);
    FieldsSplit(w1, h.length, 16);
  }

  type Byte = b: nat | b < 256

  function Bytes4(w: Word): (r: seq<Byte>)
    ensures |r| == 4
  {
    var w1 := w / 256;
    var w2 := w1 / 256;
    [w2 / 256, w2 % 256, w1 % 256, w % 256]
  }

  function Join4(b3: Byte, b2: Byte, b1: Byte, b0: Byte): Word {
    ((b3 as int * 256 + b2) * 256 + b1) * 256 + b0
  }

  function Join2(b1: Byte, b0: Byte): (w: nat)
    ensures w < 0x1_0000
  {
    b1 as int * 256 + b0
  }

  /** can_copy_tx: the packet as the chip's transmit registers receive it. */
  function CopyTx(p: Packet): (r: seq<Byte>)
    ensures |r| == 10
  {
    [PackCan(p.can) / 256, PackCan(p.can) % 256] + Bytes4(PackExt(p.ext)) + Bytes4(p.dat)
  }

  /** can_copy_rx, with the time of arrival. */
  function CopyRx(b: seq<Byte>, now: nat): Packet
    requires |b| == 10
  {
    Packet(now, UnpackCan(Join2(b[0], b[1])), UnpackExt(Join4(b[2], b[3], b[4], b[5])),
           Join4(b[6], b[7], b[8], b[9]))
  }

  /** The bytes of a word, the highest first. */
  lemma BigEndian(w: Word)
    ensures var b := Bytes4(w);
            && b[0] == w / 0x100_0000 && b[1] == w / 0x1_0000 % 256 && b[2] == w / 0x100 % 256 && b[3] == w % 256
  {
  }

  /** A node's id is made up of its cluster, module and node numbers, of five bits each. */
  lemma AddressOfId(cluster: nat, modno: nat, node: nat)
    requires cluster < 32 && modno < 32 && node < 32
    ensures var id := cluster * 0x1000 + modno * 0x40 + node;
            UnpackCluster(id) == cluster && UnpackModule(id) == modno && UnpackNode(id) == node
  {
    var id := cluster * 0x1000 + modno * 0x40 + node;
    assert id / 64 == cluster * 64 + modno && id / 4096 == cluster;
    assert id == 32 * (cluster * 128 + modno * 2) + node;
    assert cluster * 64 + modno == 32 * (cluster * 2) + modno;
  }

  /** What goes out: the two bytes of the standard header, then the extended header and the data, high bytes first. */
  lemma TxBytes(p: Packet)
    ensures var b := CopyTx(p);
            && b[0] as int * 256 + b[1] == PackCan(p.can)
            && ((b[2] as int * 256 + b[3]) * 256 + b[4]) * 256 + b[5] == PackExt(p.ext)
            && ((b[6] as int * 256 + b[7]) * 256 + b[8]) * 256 + b[9] == p.dat
  {
    BytesRoundTrip(PackExt(p.ext));
    BytesRoundTrip(p.dat);
  }

  lemma BytesRoundTrip(w: Word)
    ensures var b := Bytes4(w); Join4(b[0], b[1], b[2], b[3]) == w
  {
  }

  /** What one node sends another receives, in every field. */
  lemma CopyRoundTrip(p: Packet, now: nat)
    ensures CopyRx(CopyTx(p), now) == p.(timestamp := now)
  {
    var b := CopyTx(p);
    assert [b[2], b[3], b[4], b[5]] == Bytes4(PackExt(p.ext)) && [b[6], b[7], b[8], b[9]] == Bytes4(p.dat);
    assert Join2(b[0], b[1]) == PackCan(p.can);
    BytesRoundTrip(PackExt(p.ext));
    BytesRoundTrip(p.dat);
    ExtRoundTrip(p.ext);
    CanRoundTrip(p.can);
  }

  // ---------------------------------------------------------------------------------------------------------------
  // The acceptance filter.

  /** The chip compares the first received byte with the acceptance code in each bit that is clear in the mask. */
  predicate Accepts(mask: nat, code: nat, b: nat, bits: nat) {
    bits == 0 || ((mask % 2 == 1 || code % 2 == b % 2) && Accepts(mask / 2, code / 2, b / 2, bits - 1))
  }

  function AcceptMask(promiscuous: bool): Byte {
    if promiscuous then 0xff else 0x83
  }

  function AcceptCode(nodeid: nat): Byte {
    UnpackNode(nodeid) * 4
  }

  /** IS_MYPACKET. */
  predicate IsMyPacket(nodeid: nat, p: Packet) {
    p.can.dest == UnpackNode(nodeid)
  }

  function Pow2(n: nat): (r: nat)
    ensures r >= 1
  {
    if n == 0 then 1 else 2 * Pow2(n - 1)
  }

  lemma {:induction false} AllBitsFree(code: nat, b: nat, bits: nat)
    ensures Accepts(Pow2(bits) - 1, code, b, bits)
  {
    if bits > 0 {
      var p := Pow2(bits - 1);
      AllBitsFree(code / 2, b / 2, bits - 1);
      assert (2 * p - 1) / 2 == p - 1 && (2 * p - 1) % 2 == 1;
    }
  }

  lemma LowBit(h: nat, p: nat, x: nat)
    ensures (h * (2 * p) + x) / 2 == h * p + x / 2 && (h * (2 * p) + x) % 2 == x % 2
  {
    assert h * (2 * p) == 2 * (h * p);
  }

  /** Comparing n bits and leaving the next one out compares two n-bit numbers. */
  lemma {:induction false} BitsCompared(n: nat, x: nat, y: nat, hx: nat, hy: nat)
    requires x < Pow2(n) && y < Pow2(n)
    ensures Accepts(Pow2(n), hx * Pow2(n) + x, hy * Pow2(n) + y, n + 1) <==> x == y
  {
    if n == 0 {
      assert Accepts(1 / 2, (hx + x) / 2, (hy + y) / 2, 0);
    } else {
      var p := Pow2(n - 1);
      BitsCompared(n - 1, x / 2, y / 2, hx, hy);
      LowBit(hx, p, x);
      LowBit(hy, p, y);
      OneBit(p, hx * (2 * p) + x, hy * (2 * p) + y, n);
      assert x == y <==> x / 2 == y / 2 && x % 2 == y % 2;
    }
  }

  lemma OneBit(p: nat, code: nat, b: nat, n: nat)
    ensures Accepts(2 * p, code, b, n + 1) <==> code % 2 == b % 2 && Accepts(p, code / 2, b / 2, n)
  {
    assert 2 * p % 2 == 0 && 2 * p / 2 == p;
  }

  /** The chip passes exactly the packets the driver takes for its own, and in promiscuous mode all of them. */
  lemma FilterAgrees(nodeid: nat, p: Packet, promiscuous: bool)
    ensures Accepts(AcceptMask(promiscuous), AcceptCode(nodeid), CopyTx(p)[0], 8) <==>
            promiscuous || IsMyPacket(nodeid, p)
  {
    var node := UnpackNode(nodeid);
    var b := CopyTx(p)[0];
    assert Pow2(5) == 32;
    if promiscuous {
      assert Pow2(8) == 256;
      AllBitsFree(AcceptCode(nodeid), b, 8);
    } else {
      FirstByte(p);
      BitsCompared(5, node, p.can.dest, 0, p.can.lpriority);
      assert b / 2 / 2 == p.can.lpriority * 32 + p.can.dest;
      assert AcceptCode(nodeid) / 2 / 2 == node;
      assert Accepts(0x83, AcceptCode(nodeid), b, 8) == Accepts(0x41, AcceptCode(nodeid) / 2, b / 2, 7);
      assert Accepts(0x41, AcceptCode(nodeid) / 2, b / 2, 7) == Accepts(0x20, node, b / 2 / 2, 6);
    }
  }

  lemma FirstByte(p: Packet)
    ensures CopyTx(p)[0] == (p.can.lpriority * 32 + p.can.dest) * 4 + p.can.src / 8
  {
    var w3 := p.can.lpriority * 32 + p.can.dest;
    var low := (p.can.src % 8 * 2 + p.can.remote) * 16 + p.can.length;
    assert PackCan(p.can) == (w3 * 4 + p.can.src / 8) * 256 + low;
    FieldsSplit(w3 * 4 + p.can.src / 8, low, 256);
  }
}
