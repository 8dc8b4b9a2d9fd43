/** Data shared by the memory hierarchy: bytes, 32-bit words and 128-bit bus beats in
    little-endian byte order, core requests, and the flat byte memory they are judged against. */
module MemTypes {
  import opened Options

  type byte = x: int | 0 <= x < 256

  const MEM_BYTES := 131072  // 2^17, a 17-bit byte address bus
  const MEM_QUADS := 8192    // 128-bit bus beats
  const MEM_LINES := 2048    // 64-byte cache lines

  type Addr = a: nat | a < MEM_BYTES
  type QuadAddr = a: nat | a < MEM_QUADS
  type Cnt = n: nat | n < 4
  type Word32 = w: seq<byte> | |w| == 4 witness [0, 0, 0, 0]
  type Quad = q: seq<byte> | |q| == 16 witness seq(16, _ => 0)
  type Flat = m: seq<byte> | |m| == MEM_BYTES witness seq(MEM_BYTES, _ => 0)
  type MainMemory = m: seq<Quad> | |m| == MEM_QUADS witness seq<Quad>(MEM_QUADS, _ => ZERO_QUAD)

  const ZERO_WORD: Word32 := [0, 0, 0, 0]
  const ZERO_QUAD: Quad := seq(16, _ => 0)

  datatype Dtype = Byte | Half | Word | UByte | UHalf

  datatype Req = Req(addr: Addr, dtype: Dtype, write: bool, wdata: Word32)

  /** What the core drives on the request channel in one cycle; the payload is present even
      when the request is not valid. */
  datatype CoreIn = CoreIn(valid: bool, req: Req)

  datatype MemRsp = MemRsp(valid: bool, data: Quad)
  datatype MemWrite = MemWrite(addr: QuadAddr, data: Quad)

  function Size(d: Dtype): (n: nat)
    ensures n == 1 || n == 2 || n == 4
  {
    match d
    case Byte => 1
    case UByte => 1
    case Half => 2
    case UHalf => 2
    case Word => 4
  }

  predicate Unsigned(d: Dtype) { d.UByte? || d.UHalf? }

  predicate Aligned(r: Req) { r.addr % Size(r.dtype) == 0 }

  // ---------------------------------------------------------------------------------------
  // Flat byte memory: the reference the caches are proved against.

  function StoreTo(m: Flat, r: Req): (m': Flat)
    requires Aligned(r)
    ensures forall i :: 0 <= i < MEM_BYTES ==>
      m'[i] == if r.addr <= i < r.addr + Size(r.dtype) then r.wdata[i - r.addr] else m[i]
  {
    m[..r.addr] + r.wdata[..Size(r.dtype)] + m[r.addr + Size(r.dtype)..]
  }

  /** Zero or sign extension of 1, 2 or 4 little-endian bytes to a word. */
  function Extend(bs: seq<byte>, unsigned: bool): (w: Word32)
    requires 1 <= |bs| <= 4
    ensures w[..|bs|] == bs
    ensures forall i :: |bs| <= i < 4 ==> w[i] == if !unsigned && bs[|bs| - 1] >= 128 then 255 else 0
  {
    bs + seq(4 - |bs|, _ => if !unsigned && bs[|bs| - 1] >= 128 then 255 else 0)
  }

  function LoadFrom(m: Flat, r: Req): Word32
    requires Aligned(r)
  {
    Extend(m[r.addr..r.addr + Size(r.dtype)], Unsigned(r.dtype))
  }

  /** The loads of a request sequence, executed one after the other on a flat memory. */
  function FlatLoads(m: Flat, reqs: seq<Req>): seq<Word32>
    requires forall i :: 0 <= i < |reqs| ==> Aligned(reqs[i])
    decreases |reqs|
  {
    if reqs == [] then []
    else if reqs[0].write then FlatLoads(StoreTo(m, reqs[0]), reqs[1..])
    else [LoadFrom(m, reqs[0])] + FlatLoads(m, reqs[1..])
  }

  function FlatAfter(m: Flat, reqs: seq<Req>): Flat
    requires forall i :: 0 <= i < |reqs| ==> Aligned(reqs[i])
    decreases |reqs|
  {
    if reqs == [] then m
    else FlatAfter(if reqs[0].write then StoreTo(m, reqs[0]) else m, reqs[1..])
  }

  // ---------------------------------------------------------------------------------------
  // Tables indexed [way][entry], as the arrays of the caches are.

  type Table<T> = seq<seq<T>>

  predicate Shape<T>(t: Table<T>, rows: nat, cols: nat) {
    |t| == rows && forall w :: 0 <= w < rows ==> |t[w]| == cols
  }

  function Put<T>(t: Table<T>, w: nat, s: nat, v: T): (t': Table<T>)
    requires w < |t| && s < |t[w]|
    ensures |t'| == |t|
    ensures forall x :: 0 <= x < |t| ==> |t'[x]| == |t[x]|
    ensures forall x, y :: 0 <= x < |t| && 0 <= y < |t[x]| ==>
      t'[x][y] == if x == w && y == s then v else t[x][y]
  {
    t[w := t[w][s := v]]
  }

  /** Write under byte enables. */
  function ByteWrite(q: Quad, en: seq<bool>, din: Quad): (q': Quad)
    requires |en| == 16
    ensures forall i :: 0 <= i < 16 ==> q'[i] == if en[i] then din[i] else q[i]
  {
    seq(16, i requires 0 <= i < 16 => if en[i] then din[i] else q[i])
  }

  /** One clock edge of the main memory data port (write first, registered read data). */
  function MemStep(m: MainMemory, rsp: MemRsp, w: Option<MemWrite>, r: Option<QuadAddr>): (MainMemory, MemRsp) {
    var data := if w.None? && r.Some? then m[r.value] else rsp.data;
    (if w.Some? then m[w.value.addr := w.value.data] else m, MemRsp(r.Some?, data))
  }
}
