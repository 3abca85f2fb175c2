/** Scatter/gather vectors: the OCaml list of `(buffer, offset, length)`
    triples handed to the stubs, and the C `struct iovec` array built from it.
    Raw addresses are modelled as a memory region plus an offset into it. */
module IoVectors {
  import opened OCamlList

  /** The OCaml value a vector points into: an OCaml string/bytes value, or a
      one-dimensional char bigarray (`Lwt_bytes.t`). `size` is its length. */
  datatype Buffer = OCamlString(id: nat, size: nat) | Bigstring(id: nat, size: nat)

  /** One OCaml io-vector: field 0 the buffer, field 1 the offset, field 2 the length. */
  datatype IoVector = IoVector(buffer: Buffer, offset: int, length: int)

  /** The memory a C pointer can point into: the bytes of an OCaml string
      (`String_val`) or the data block of a bigarray (`Caml_ba_data_val`). */
  datatype Region = StringData(id: nat) | BigarrayData(id: nat)

  /** A C address, as a region and a byte offset within it. */
  datatype Addr = Addr(region: Region, offset: int)

  /** One `struct iovec`: `iov_base` and `iov_len`. */
  datatype IoVec = IoVec(base: Addr, len: int)

  /** The region holding the bytes of an OCaml buffer. */
  function RegionOf(b: Buffer): Region
  {
    match b
    case OCamlString(id, _) => StringData(id)
    case Bigstring(id, _) => BigarrayData(id)
  }

  /** The caller's obligation: the vector lies within its buffer. The stubs
      themselves never check this; it is checked on the OCaml side. */
  predicate InBounds(v: IoVector)
  {
    0 <= v.offset && 0 <= v.length && v.offset + v.length <= v.buffer.size
  }

  predicate AllInBounds(vs: seq<IoVector>)
  {
    forall i :: 0 <= i < |vs| ==> InBounds(vs[i])
  }

  predicate AllStrings(vs: seq<IoVector>)
  {
    forall i :: 0 <= i < |vs| ==> vs[i].buffer.OCamlString?
  }

  predicate AllBigstrings(vs: seq<IoVector>)
  {
    forall i :: 0 <= i < |vs| ==> vs[i].buffer.Bigstring?
  }

  /** `iovs` has one entry per vector, in list order, entry `i` starting at
      offset `offset_i` of buffer `i` and spanning `length_i` bytes. */
  predicate Describes(vs: seq<IoVector>, iovs: seq<IoVec>)
  {
    && |iovs| == |vs|
    && forall i :: 0 <= i < |vs| ==>
         iovs[i].base == Addr(RegionOf(vs[i].buffer), vs[i].offset) && iovs[i].len == vs[i].length
  }

  /** `store_iovs`: one iovec per element of a list of string vectors, the
      base being the address of byte `offset` of the string. */
  method StoreIovs(iovsVal: List<IoVector>) returns (iovs: seq<IoVec>)
    requires AllStrings(ToSeq(iovsVal)) && AllInBounds(ToSeq(iovsVal))
    ensures Describes(ToSeq(iovsVal), iovs)
    ensures forall i :: 0 <= i < |iovs| ==> iovs[i].base.region.StringData?
  {
    iovs := [];
    var list := iovsVal;
    while list.Cons?
      invariant |iovs| <= |ToSeq(iovsVal)|
      invariant ToSeq(iovsVal) == ToSeq(iovsVal)[..|iovs|] + ToSeq(list)
      invariant Describes(ToSeq(iovsVal)[..|iovs|], iovs)
      decreases Length(list)
    {
      var x := list.head;
      iovs := iovs + [IoVec(Addr(StringData(x.buffer.id), x.offset), x.length)];
      list := list.tail;
    }
  }

  /** `bytes_store_iovs`: the same for bigarray vectors, the base being the
      bigarray's data pointer advanced by `offset`. */
  method BytesStoreIovs(iovsVal: List<IoVector>) returns (iovs: seq<IoVec>)
    requires AllBigstrings(ToSeq(iovsVal)) && AllInBounds(ToSeq(iovsVal))
    ensures Describes(ToSeq(iovsVal), iovs)
    ensures forall i :: 0 <= i < |iovs| ==> iovs[i].base.region.BigarrayData?
  {
    iovs := [];
    var list := iovsVal;
    while list.Cons?
      invariant |iovs| <= |ToSeq(iovsVal)|
      invariant ToSeq(iovsVal) == ToSeq(iovsVal)[..|iovs|] + ToSeq(list)
      invariant Describes(ToSeq(iovsVal)[..|iovs|], iovs)
      decreases Length(list)
    {
      var x := list.head;
      iovs := iovs + [IoVec(Addr(BigarrayData(x.buffer.id), x.offset), x.length)];
      list := list.tail;
    }
  }

  /** Memory contents: the bytes of every region. */
  type Memory = Region -> seq<bv8>

  /** `mem` holds, for every vector's buffer, exactly `size` bytes. */
  predicate Backs(mem: Memory, vs: seq<IoVector>)
  {
    forall i :: 0 <= i < |vs| ==> |mem(RegionOf(vs[i].buffer))| == vs[i].buffer.size
  }

  predicate IovInMemory(mem: Memory, iov: IoVec)
  {
    0 <= iov.base.offset && 0 <= iov.len && iov.base.offset + iov.len <= |mem(iov.base.region)|
  }

  /** The bytes a gathering write (`sendmsg`) takes from memory through `iovs`,
      in array order. */
  function Gather(mem: Memory, iovs: seq<IoVec>): seq<bv8>
    requires forall i :: 0 <= i < |iovs| ==> IovInMemory(mem, iovs[i])
  {
    if |iovs| == 0 then []
    else
      assert IovInMemory(mem, iovs[0]);
      mem(iovs[0].base.region)[iovs[0].base.offset .. iovs[0].base.offset + iovs[0].len]
      + Gather(mem, iovs[1..])
  }

  /** The logical contents of a vector list on the OCaml side: the
      concatenation of each buffer's `[offset, offset + length)` slice. */
  function Contents(mem: Memory, vs: seq<IoVector>): (bytes: seq<bv8>)
    requires AllInBounds(vs) && Backs(mem, vs)
    ensures |bytes| == TotalLength(vs)
  {
    if |vs| == 0 then []
    else
      mem(RegionOf(vs[0].buffer))[vs[0].offset .. vs[0].offset + vs[0].length]
      + Contents(mem, vs[1..])
  }

  /** Sum of the vector lengths. */
  function TotalLength(vs: seq<IoVector>): int
  {
    if |vs| == 0 then 0 else vs[0].length + TotalLength(vs[1..])
  }

  /** Gathering through an iovec array that describes a vector list yields the
      vectors' contents concatenated in list order, and nothing more. */
  lemma {:induction false} GatherFollowsListOrder(mem: Memory, vs: seq<IoVector>, iovs: seq<IoVec>)
    requires AllInBounds(vs) && Backs(mem, vs) && Describes(vs, iovs)
    ensures forall i :: 0 <= i < |iovs| ==> IovInMemory(mem, iovs[i])
    ensures Gather(mem, iovs) == Contents(mem, vs)
    ensures |Gather(mem, iovs)| == TotalLength(vs)
  {
    if |vs| > 0 {
      assert AllInBounds(vs[1..]) && Backs(mem, vs[1..]);
      assert Describes(vs[1..], iovs[1..]);
      GatherFollowsListOrder(mem, vs[1..], iovs[1..]);
      assert IovInMemory(mem, iovs[0]);
    }
  }
}
