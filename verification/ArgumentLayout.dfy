/** Where the GPU addresses of an indirect command are. The patching side computes their offsets from
    a table of structure sizes; the dump reads them as fields of the structures. */
module ArgumentLayout {
  import opened AddressMapping
  import opened Arithmetic

  datatype Argument =
    | Draw
    | DrawIndexed
    | Dispatch
    | VertexBufferView
    | IndexBufferView
    | Constant(values: nat)
    | ConstantBufferView
    | ShaderResourceView
    | UnorderedAccessView
    | DispatchRays
    | DispatchMesh
    | Other                        // a type neither walk knows; it takes no space in either

  /** Fields of the API's structures, in order. */
  datatype Field = Address | Long | Int
  {
    function Size(): nat {
      if Int? then 4 else 8
    }
  }

  function Ints(n: nat): seq<Field> {
    seq(n, i => Int)
  }

  function Fields(arg: Argument): seq<Field> {
    match arg
    case Draw => Ints(4)
    case DrawIndexed => Ints(5)
    case Dispatch => Ints(3)
    case VertexBufferView => [Address, Int, Int]
    case IndexBufferView => [Address, Int, Int]
    case Constant(n) => Ints(n)
    case ConstantBufferView => [Address]
    case ShaderResourceView => [Address]
    case UnorderedAccessView => [Address]
    case DispatchRays =>
      [Address, Long,                  // RayGenerationShaderRecord
       Address, Long, Long,            // MissShaderTable
       Address, Long, Long,            // HitGroupTable
       Address, Long, Long,            // CallableShaderTable
       Int, Int, Int, Int]             // Width, Height, Depth, padding to 8
    case DispatchMesh => Ints(3)
    case Other => []
  }

  function Size(fields: seq<Field>): (r: nat)
    ensures r % 4 == 0
  {
    if fields == [] then 0 else Size(fields[..|fields| - 1]) + fields[|fields| - 1].Size()
  }

  /** Offsets of the address fields of consecutive fields that start at `at`. */
  function Addresses(fields: seq<Field>, at: nat): seq<nat> {
    if fields == [] then []
    else
      var front, last := fields[..|fields| - 1], fields[|fields| - 1];
      Addresses(front, at) + if last.Address? then [at + Size(front)] else []
  }

  function AllFields(signature: seq<Argument>): seq<Field> {
    if signature == [] then []
    else AllFields(signature[..|signature| - 1]) + Fields(signature[|signature| - 1])
  }

  function SignatureSize(signature: seq<Argument>): nat {
    Size(AllFields(signature))
  }

  /** Byte offsets of the addresses of one command: the specification of both walks. */
  function AddressOffsets(signature: seq<Argument>): seq<nat> {
    Addresses(AllFields(signature), 0)
  }

  lemma {:induction false} SizeOfConcat(a: seq<Field>, b: seq<Field>, at: nat)
    ensures Size(a + b) == Size(a) + Size(b)
    ensures Addresses(a + b, at) == Addresses(a, at) + Addresses(b, at + Size(a))
  {
    if b == [] {
      assert a + b == a;
    } else {
      var front := b[..|b| - 1];
      SizeOfConcat(a, front, at);
      assert (a + b)[..|a + b| - 1] == a + front;
    }
  }

  lemma {:induction false} IntsHoldNoAddress(n: nat, at: nat)
    ensures Size(Ints(n)) == 4 * n && Addresses(Ints(n), at) == []
  {
    if n > 0 {
      IntsHoldNoAddress(n - 1, at);
      assert Ints(n)[..n - 1] == Ints(n - 1);
    }
  }

  /** Offsets increase by at least eight, stay inside, and are four-byte aligned. */
  ghost predicate Spaced(offsets: seq<nat>, from: nat, to: nat) {
    && (forall i :: 0 <= i < |offsets| ==> from <= offsets[i] && offsets[i] + 8 <= to && (offsets[i] - from) % 4 == 0)
    && (forall i, j :: 0 <= i < j < |offsets| ==> offsets[i] + 8 <= offsets[j])
  }

  lemma {:induction false} AddressesSpaced(fields: seq<Field>, at: nat)
    ensures Spaced(Addresses(fields, at), at, at + Size(fields))
  {
    if fields != [] {
      AddressesSpaced(fields[..|fields| - 1], at);
    }
  }

  /** The offsets the kernel patches are strictly increasing, at least 8 apart, and inside the command. */
  lemma OffsetsSpaced(signature: seq<Argument>)
    ensures Spaced(AddressOffsets(signature), 0, SignatureSize(signature))
  {
    AddressesSpaced(AllFields(signature), 0);
  }

  // ---------------------------------------------------------------------------------------------
  // The patching side

  /** Sizes the patch layer adds for each argument type; all sums are 32-bit. */
  function Advance(offset: nat, bytes: nat): nat {
    if offset + bytes < TWO_TO_THE_32 then offset + bytes else (offset + bytes) % TWO_TO_THE_32
  }

  function Bytes(arg: Argument): nat {
    match arg
    case Draw => 16
    case DrawIndexed => 20
    case Dispatch => 12
    case VertexBufferView => 16
    case IndexBufferView => 16
    case Constant(n) => n * 4
    case ConstantBufferView => 8
    case ShaderResourceView => 8
    case UnorderedAccessView => 8
    case DispatchRays => 104
    case DispatchMesh => 12
    case Other => 0
  }

  function Found(arg: Argument, at: nat): seq<nat> {
    match arg
    case VertexBufferView => [at]
    case IndexBufferView => [at]
    case ConstantBufferView => [at]
    case ShaderResourceView => [at]
    case UnorderedAccessView => [at]
    case DispatchRays => [at, at + 16, at + 40, at + 64]
    case _ => []
  }

  lemma Nothing(at: nat)
    ensures Size([]) == 0 && Addresses([], at) == []
  {
  }

  lemma One(fields: seq<Field>, last: Field, at: nat)
    ensures Size(fields + [last]) == Size(fields) + last.Size()
    ensures Addresses(fields + [last], at) == Addresses(fields, at) + if last.Address? then [at + Size(fields)] else []
  {
    assert (fields + [last])[..|fields|] == fields;
  }

  lemma View(at: nat)
    ensures Size([Address, Int, Int]) == 16 && Addresses([Address, Int, Int], at) == [at]
  {
    One([], Address, at);
    One([Address], Int, at);
    One([Address, Int], Int, at);
    assert [] + [Address] == [Address] && [Address] + [Int] == [Address, Int] && [Address, Int] + [Int] == [Address, Int, Int];
  }

  lemma Table(at: nat)
    ensures Size([Address, Long, Long]) == 24 && Addresses([Address, Long, Long], at) == [at]
  {
    One([], Address, at);
    One([Address], Long, at);
    One([Address, Long], Long, at);
    assert [] + [Address] == [Address] && [Address] + [Long] == [Address, Long] && [Address, Long] + [Long] == [Address, Long, Long];
  }

  lemma Rays(at: nat)
    ensures Size(Fields(DispatchRays)) == 104
    ensures Addresses(Fields(DispatchRays), at) == [at, at + 16, at + 40, at + 64]
  {
    hide Size, Addresses;
    var record, table, dims := [Address, Long], [Address, Long, Long], Ints(4);
    assert Ints(4) == [Int, Int, Int, Int];
    One([], Address, at);
    One([Address], Long, at);
    assert [] + [Address] == [Address] && [Address] + [Long] == record;
    Nothing(at);
    Table(at + 16);
    Table(at + 40);
    Table(at + 64);
    IntsHoldNoAddress(4, at + 88);
    SizeOfConcat(record, table, at);
    SizeOfConcat(record + table, table, at);
    SizeOfConcat(record + table + table, table, at);
    SizeOfConcat(record + table + table + table, dims, at);
    assert Fields(DispatchRays) == record + table + table + table + dims;
  }

  lemma {:induction false} PrefixFits(signature: seq<Argument>, j: nat)
    requires j <= |signature|
    ensures SignatureSize(signature[..j]) <= SignatureSize(signature)
    decreases |signature|
  {
    if j < |signature| {
      var front := signature[..|signature| - 1];
      PrefixFits(front, j);
      assert front[..j] == signature[..j];
      SizeOfConcat(AllFields(front), Fields(signature[|signature| - 1]), 0);
    } else {
      assert signature[..j] == signature;
    }
  }

  lemma NextArgument(signature: seq<Argument>, j: nat)
    requires j < |signature|
    ensures var before, arg := signature[..j], signature[j];
      && SignatureSize(signature[..j + 1]) == SignatureSize(before) + Size(Fields(arg))
      && AddressOffsets(signature[..j + 1]) == AddressOffsets(before) + Addresses(Fields(arg), SignatureSize(before))
  {
    assert signature[..j + 1][..j] == signature[..j];
    SizeOfConcat(AllFields(signature[..j]), Fields(signature[j]), 0);
  }

  /** The sizes and offsets the layer uses are those of the structures. */
  lemma TableMatchesLayout(arg: Argument, at: nat)
    ensures Size(Fields(arg)) == Bytes(arg) && Addresses(Fields(arg), at) == Found(arg, at)
  {
    var n := match arg case Draw => 4 case DrawIndexed => 5 case Constant(n) => n case _ => 3;
    IntsHoldNoAddress(n, at);
    match arg
    case VertexBufferView => View(at);
    case IndexBufferView => View(at);
    case DispatchRays => Rays(at);
    case _ =>
  }

  lemma WalkStep(signature: seq<Argument>, j: nat)
    requires j < |signature|
    ensures SignatureSize(signature[..j + 1]) == SignatureSize(signature[..j]) + Bytes(signature[j]) <= SignatureSize(signature)
    ensures AddressOffsets(signature[..j + 1]) == AddressOffsets(signature[..j]) + Found(signature[j], SignatureSize(signature[..j]))
  {
    NextArgument(signature, j);
    PrefixFits(signature, j + 1);
    TableMatchesLayout(signature[j], SignatureSize(signature[..j]));
  }

  /** The switch of the walk. */
  method VisitArgument(arg: Argument, start: nat, known: seq<nat>) returns (offset: nat, patchOffsets: seq<nat>)
    requires start + Bytes(arg) < TWO_TO_THE_32
    ensures offset == start + Bytes(arg)
    ensures patchOffsets == known + Found(arg, start)
  {
    offset, patchOffsets := start, known;
    match arg {
      case Draw => offset := Advance(offset, 16);
      case DrawIndexed => offset := Advance(offset, 20);
      case Dispatch => offset := Advance(offset, 12);
      case VertexBufferView =>
        patchOffsets := patchOffsets + [offset];
        offset := Advance(offset, 16);
      case IndexBufferView =>
        patchOffsets := patchOffsets + [offset];
        offset := Advance(offset, 16);
      case Constant(n) => offset := Advance(offset, n * 4);
      case ConstantBufferView =>
        patchOffsets := patchOffsets + [offset];
        offset := Advance(offset, 8);
      case ShaderResourceView =>
        patchOffsets := patchOffsets + [offset];
        offset := Advance(offset, 8);
      case UnorderedAccessView =>
        patchOffsets := patchOffsets + [offset];
        offset := Advance(offset, 8);
      case DispatchRays =>
        var localOffset := offset;
        patchOffsets := patchOffsets + [localOffset];
        localOffset := Advance(localOffset, 16);
        patchOffsets := patchOffsets + [localOffset];
        localOffset := Advance(localOffset, 24);
        patchOffsets := patchOffsets + [localOffset];
        localOffset := Advance(localOffset, 24);
        patchOffsets := patchOffsets + [localOffset];
        offset := Advance(offset, 104);
      case DispatchMesh => offset := Advance(offset, 12);
      case Other =>
    }
  }

  /** GetPatchOffsets finds exactly the address fields, in order. */
  method GetPatchOffsets(signature: seq<Argument>) returns (patchOffsets: seq<nat>)
    requires SignatureSize(signature) < TWO_TO_THE_32
    ensures patchOffsets == AddressOffsets(signature)
  {
    patchOffsets := [];
    var offset := 0;
    for j := 0 to |signature|
      invariant offset == SignatureSize(signature[..j])
      invariant patchOffsets == AddressOffsets(signature[..j])
    {
      WalkStep(signature, j);
      offset, patchOffsets := VisitArgument(signature[j], offset, patchOffsets);
    }
    assert signature[..|signature|] == signature;
  }

  // ---------------------------------------------------------------------------------------------
  // The dump

  lemma {:induction false} AddressesShift(fields: seq<Field>, at: nat)
    ensures |Addresses(fields, at)| == |Addresses(fields, 0)|
    ensures forall k :: 0 <= k < |Addresses(fields, 0)| ==> Addresses(fields, at)[k] == at + Addresses(fields, 0)[k]
  {
    if fields != [] {
      AddressesShift(fields[..|fields| - 1], at);
    }
  }

  function Shifted(offsets: seq<nat>, base: nat): (r: seq<nat>)
    ensures |r| == |offsets| && forall k :: 0 <= k < |r| ==> r[k] == base + offsets[k]
  {
    seq(|offsets|, k requires 0 <= k < |offsets| => base + offsets[k])
  }

  /** Address positions of the first `count` commands, `stride` bytes apart. */
  function Positions(signature: seq<Argument>, stride: nat, count: nat): seq<nat> {
    if count == 0 then []
    else
      Positions(signature, stride, count - 1) + Shifted(AddressOffsets(signature), (count - 1) * stride)
  }

  lemma ShiftedOffsets(signature: seq<Argument>, base: nat)
    ensures Shifted(AddressOffsets(signature), base) == Addresses(AllFields(signature), base)
  {
    AddressesShift(AllFields(signature), base);
    hide Addresses, AllFields, Shifted;
  }

  lemma PositionsStep(signature: seq<Argument>, stride: nat, i: nat)
    ensures Positions(signature, stride, i + 1) == Positions(signature, stride, i) + Addresses(AllFields(signature), i * stride)
  {
    hide Addresses, AllFields, AddressOffsets;
    ShiftedOffsets(signature, i * stride);
  }

  lemma DumpStep(signature: seq<Argument>, at: nat, j: nat)
    requires j < |signature|
    ensures Addresses(AllFields(signature[..j + 1]), at)
         == Addresses(AllFields(signature[..j]), at) + Addresses(Fields(signature[j]), at + SignatureSize(signature[..j]))
    ensures SignatureSize(signature[..j + 1]) == SignatureSize(signature[..j]) + Size(Fields(signature[j])) <= SignatureSize(signature)
  {
    hide Size, Addresses, Fields;
    assert signature[..j + 1][..j] == signature[..j];
    SizeOfConcat(AllFields(signature[..j]), Fields(signature[j]), at);
    PrefixFits(signature, j + 1);
  }

  method DumpConstants(values: nat, start: nat) returns (offset: nat)
    requires start + 4 * values < TWO_TO_THE_32
    ensures offset == start + 4 * values
  {
    offset := start;
    for i := 0 to values
      invariant offset == start + 4 * i
    {
      offset := Advance(offset, 4);
    }
  }

  /** Where field i of a structure read at `at` is. */
  function Member(arg: Argument, at: nat, i: nat): nat
    requires i <= |Fields(arg)|
  {
    at + Size(Fields(arg)[..i])
  }

  lemma RaysMembers(at: nat)
    ensures Member(DispatchRays, at, 0) == at && Member(DispatchRays, at, 2) == at + 16
    ensures Member(DispatchRays, at, 5) == at + 40 && Member(DispatchRays, at, 8) == at + 64
  {
    hide Size;
    var fields, record, table := Fields(DispatchRays), [Address, Long], [Address, Long, Long];
    One([], Address, at);
    One([Address], Long, at);
    assert [] + [Address] == [Address] && [Address] + [Long] == record;
    Nothing(at);
    Table(at);
    SizeOfConcat(record, table, at);
    SizeOfConcat(record + table, table, at);
    assert fields[..0] == [] && fields[..2] == record && fields[..5] == record + table && fields[..8] == record + table + table;
  }

  method DumpRays(start: nat) returns (offset: nat, found: seq<nat>)
    requires start + Size(Fields(DispatchRays)) < TWO_TO_THE_32
    ensures offset == start + Size(Fields(DispatchRays)) && found == Addresses(Fields(DispatchRays), start)
  {
    Rays(start);
    RaysMembers(start);
    hide Size, Addresses;
    found := [Member(DispatchRays, start, 0)];               // RayGenerationShaderRecord.StartAddress
    found := found + [Member(DispatchRays, start, 2)];       // MissShaderTable.StartAddress
    found := found + [Member(DispatchRays, start, 5)];       // HitGroupTable.StartAddress
    found := found + [Member(DispatchRays, start, 8)];       // CallableShaderTable.StartAddress
    offset := Advance(start, Size(Fields(DispatchRays)));
  }

  /** The switch of the dump: an argument is read as its structure, whose address fields are printed
      as addresses, and the walk goes on after the structure. */
  method DumpOne(arg: Argument, start: nat) returns (offset: nat, found: seq<nat>)
    requires start + Size(Fields(arg)) < TWO_TO_THE_32
    ensures offset == start + Size(Fields(arg)) && found == Addresses(Fields(arg), start)
  {
    TableMatchesLayout(arg, start);
    hide Size, Addresses, Fields, Member;
    offset, found := start, [];
    match arg {
      case Draw => offset := Advance(start, 4 * 4);
      case DrawIndexed => offset := Advance(start, 5 * 4);
      case Dispatch => offset := Advance(start, 3 * 4);
      case VertexBufferView =>
        found := [start];                                    // BufferLocation, SizeInBytes, StrideInBytes
        offset := Advance(start, 8 + 4 + 4);
      case IndexBufferView =>
        found := [start];                                    // BufferLocation, SizeInBytes, Format
        offset := Advance(start, 8 + 4 + 4);
      case Constant(n) => offset := DumpConstants(n, start);
      case ConstantBufferView =>
        found := [start];
        offset := Advance(start, 8);
      case ShaderResourceView =>
        found := [start];
        offset := Advance(start, 8);
      case UnorderedAccessView =>
        found := [start];
        offset := Advance(start, 8);
      case DispatchRays => offset, found := DumpRays(start);
      case DispatchMesh => offset := Advance(start, 3 * 4);
      case Other =>
    }
  }

  lemma NoArguments(signature: seq<Argument>, at: nat)
    ensures SignatureSize(signature[..0]) == 0 && Addresses(AllFields(signature[..0]), at) == []
  {
  }

  /** One command of the dump: each argument is read as its structure, constants one by one. */
  method DumpArgument(signature: seq<Argument>, start: nat) returns (positions: seq<nat>)
    requires start + SignatureSize(signature) < TWO_TO_THE_32
    ensures positions == Addresses(AllFields(signature), start)
  {
    hide AllFields, Addresses, Size, SignatureSize;
    NoArguments(signature, start);
    positions := [];
    var offset := start;
    for j := 0 to |signature|
      invariant offset == start + SignatureSize(signature[..j])
      invariant positions == Addresses(AllFields(signature[..j]), start)
    {
      DumpStep(signature, start, j);
      var next, found := DumpOne(signature[j], offset);
      offset, positions := next, positions + found;
    }
    assert signature[..|signature|] == signature;
  }

  method DumpArgumentBuffer(signature: seq<Argument>, stride: nat, argumentCount: nat) returns (positions: seq<nat>)
    requires SignatureSize(signature) <= stride && argumentCount * stride < TWO_TO_THE_32
    ensures positions == Positions(signature, stride, argumentCount)
  {
    positions := [];
    hide Addresses, AllFields, AddressOffsets;
    for i := 0 to argumentCount
      invariant positions == Positions(signature, stride, i)
    {
      CommandInside(stride, argumentCount, i);
      var offset := (i * stride) % TWO_TO_THE_32;
      var found := DumpArgument(signature, offset);
      positions := positions + found;
      PositionsStep(signature, stride, i);
    }
  }

  lemma CommandInside(stride: nat, count: nat, i: nat)
    requires i < count && count * stride < TWO_TO_THE_32
    ensures i * stride + stride < TWO_TO_THE_32 && (i * stride) % TWO_TO_THE_32 == i * stride
  {
    assert (i + 1) * stride <= count * stride;
    assert (i + 1) * stride == i * stride + stride;
  }
}
