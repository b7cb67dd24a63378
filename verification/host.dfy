/** The ONNX Runtime C API as the wrapper sees it: a table of foreign calls.
    Their behaviour is not visible, so a `Runtime` holds, as a constant, what
    every call answers (`Answers`), records each call it receives in a ghost
    `trace`, and keeps the set of `OrtTensorTypeAndShapeInfo` handles that
    have been handed out and not yet released. Calls whose status the wrapper
    ignores are modelled without a status. */
module Host {
  import opened OrtTypes

  /** A pointer out-parameter: null, or the handle of a runtime object. */
  datatype Ptr = NullPtr | Ptr(addr: nat)

  /** A status-returning call: its status and what it wrote to its
      out-parameter. */
  datatype Reply<T> = Reply(status: Status, out: T)

  /** What the runtime knows of one `OrtValue` tensor. */
  datatype TensorRecord = TensorRecord(
    countStatus: Status,          // status of GetTensorShapeElementCount
    elementCount: u64,            // its element count
    dims: seq<i64>,               // GetDimensionsCount / GetDimensions
    stringBytes: u64,             // GetStringTensorDataLength
    stringContent: seq<byte>,     // bytes GetStringTensorContent writes
    stringOffsets: seq<usize>)    // offsets GetStringTensorContent writes

  /** The answers of every foreign call the wrapper makes. */
  datatype Answers = Answers(
    inputCount: Reply<u64>,                     // KernelContext_GetInputCount
    outputCount: Reply<u64>,                    // KernelContext_GetOutputCount
    input: u64 -> Reply<Ptr>,                   // KernelContext_GetInput
    output: (u64, seq<i64>) -> Reply<Ptr>,      // KernelContext_GetOutput
    tensor: nat -> TensorRecord,                // the tensor behind a value handle
    attributeSize: seq<byte> -> Reply<usize>,   // KernelInfoGetAttribute_string, size query
    attributeFill: seq<byte> -> Status,         // KernelInfoGetAttribute_string, with a buffer
    attributeBytes: seq<byte> -> seq<byte>,     // the bytes that second call writes
    createDomain: seq<byte> -> Reply<nat>,      // CreateCustomOpDomain
    addDomain: (nat, nat) -> Status,            // AddCustomOpDomain(options, domain)
    addOp: (nat, nat) -> Status)                // CustomOpDomain_Add(domain, op)

  /** One foreign call, as recorded in the trace. */
  datatype Call =
    | GetInputCount
    | GetOutputCount
    | GetInput(index: u64)
    | GetOutput(index: u64, shape: seq<i64>)
    | CreateStatus(code: u32, message: seq<byte>)
    | GetTensorTypeAndShape(value: nat, info: nat)
    | GetTensorShapeElementCount(info: nat)
    | GetDimensionsCount(info: nat)
    | GetDimensions(info: nat, length: nat)
    | ReleaseTensorTypeAndShapeInfo(info: nat)
    | GetStringTensorDataLength(value: nat)
    | GetStringTensorContent(value: nat, bufLength: nat, offsetsLength: nat)
    | GetTensorMutableData(value: nat)
    | GetAttributeSize(name: seq<byte>)
    | GetAttributeString(name: seq<byte>, bufLength: nat)
    | CreateCustomOpDomain(name: seq<byte>)
    | AddCustomOpDomain(options: nat, domain: nat)
    | CustomOpDomainAdd(domain: nat, op: nat)

  /** `n` copies of `x`: a freshly allocated, zero-filled `Vec`. */
  function Filled<T>(n: nat, x: T): (r: seq<T>)
    ensures |r| == n && forall i :: 0 <= i < n ==> r[i] == x
  {
    seq(n, _ => x)
  }

  /** A buffer after the runtime has written `content` over its front: the
      runtime never writes past the end of the buffer it is given. */
  function Overwrite<T>(buf: seq<T>, content: seq<T>): (r: seq<T>)
    ensures |r| == |buf|
    ensures forall i :: 0 <= i < |r| ==> r[i] == if i < |content| then content[i] else buf[i]
  {
    if |content| >= |buf| then content[..|buf|] else content + buf[|content|..]
  }

  class Runtime {
    const answers: Answers
    ghost var trace: seq<Call>
    /** Handles of the shape infos handed out and not yet released. */
    ghost var live: set<nat>
    var nextInfo: nat
    /** The value each shape info handed out describes. */
    var infoValue: map<nat, nat>

    ghost predicate Valid()
      reads this
    {
      live <= infoValue.Keys && forall i :: i in infoValue ==> i < nextInfo
    }

    constructor (answers: Answers)
      ensures Valid() && this.answers == answers
      ensures trace == [] && live == {} && nextInfo == 0 && infoValue == map[]
    {
      this.answers := answers;
      trace := [];
      live := {};
      nextInfo := 0;
      infoValue := map[];
    }

    method KernelContextGetInputCount() returns (r: Reply<u64>)
      modifies this`trace
      ensures r == answers.inputCount && trace == old(trace) + [GetInputCount]
    {
      r := answers.inputCount;
      trace := trace + [GetInputCount];
    }

    method KernelContextGetOutputCount() returns (r: Reply<u64>)
      modifies this`trace
      ensures r == answers.outputCount && trace == old(trace) + [GetOutputCount]
    {
      r := answers.outputCount;
      trace := trace + [GetOutputCount];
    }

    method KernelContextGetInput(index: u64) returns (r: Reply<Ptr>)
      modifies this`trace
      ensures r == answers.input(index) && trace == old(trace) + [GetInput(index)]
    {
      r := answers.input(index);
      trace := trace + [GetInput(index)];
    }

    method KernelContextGetOutput(index: u64, shape: seq<i64>) returns (r: Reply<Ptr>)
      modifies this`trace
      ensures r == answers.output(index, shape) && trace == old(trace) + [GetOutput(index, shape)]
    {
      r := answers.output(index, shape);
      trace := trace + [GetOutput(index, shape)];
    }

    /** `CreateStatus` allocates a status carrying the code and message. */
    method CreateStatusFor(code: u32, message: seq<byte>) returns (s: Status)
      modifies this`trace
      ensures s == Error(code, message) && trace == old(trace) + [CreateStatus(code, message)]
    {
      s := Error(code, message);
      trace := trace + [CreateStatus(code, message)];
    }

    /** `GetTensorTypeAndShape` hands out a new shape info for `value`. */
    method AcquireTensorTypeAndShape(value: nat) returns (info: nat)
      requires Valid()
      modifies this`trace, this`live, this`nextInfo, this`infoValue
      ensures Valid()
      ensures info == old(nextInfo) && info !in old(live) && nextInfo == info + 1
      ensures live == old(live) + {info} && infoValue == old(infoValue)[info := value]
      ensures trace == old(trace) + [GetTensorTypeAndShape(value, info)]
    {
      info := nextInfo;
      nextInfo := nextInfo + 1;
      live := live + {info};
      infoValue := infoValue[info := value];
      trace := trace + [GetTensorTypeAndShape(value, info)];
    }

    /** `ReleaseTensorTypeAndShapeInfo`: only a live handle may be released,
        so no handle is released twice. */
    method ReleaseInfo(info: nat)
      requires Valid() && info in live
      modifies this`trace, this`live
      ensures Valid() && live == old(live) - {info}
      ensures trace == old(trace) + [ReleaseTensorTypeAndShapeInfo(info)]
    {
      live := live - {info};
      trace := trace + [ReleaseTensorTypeAndShapeInfo(info)];
    }

    method TensorShapeElementCount(info: nat) returns (r: Reply<u64>)
      requires Valid() && info in live
      modifies this`trace
      ensures r == Reply(answers.tensor(infoValue[info]).countStatus, answers.tensor(infoValue[info]).elementCount)
      ensures trace == old(trace) + [GetTensorShapeElementCount(info)]
    {
      var rec := answers.tensor(infoValue[info]);
      r := Reply(rec.countStatus, rec.elementCount);
      trace := trace + [GetTensorShapeElementCount(info)];
    }

    method DimensionsCount(info: nat) returns (n: nat)
      requires Valid() && info in live
      modifies this`trace
      ensures n == |answers.tensor(infoValue[info]).dims|
      ensures trace == old(trace) + [GetDimensionsCount(info)]
    {
      n := |answers.tensor(infoValue[info]).dims|;
      trace := trace + [GetDimensionsCount(info)];
    }

    /** `GetDimensions` writes the dimensions into the caller's buffer. */
    method Dimensions(info: nat, out: array<i64>)
      requires Valid() && info in live
      modifies this`trace, out
      ensures out[..] == Overwrite(old(out[..]), answers.tensor(infoValue[info]).dims)
      ensures trace == old(trace) + [GetDimensions(info, out.Length)]
    {
      var dims := answers.tensor(infoValue[info]).dims;
      forall i | 0 <= i < out.Length && i < |dims| {
        out[i] := dims[i];
      }
      trace := trace + [GetDimensions(info, out.Length)];
    }

    method StringTensorDataLength(value: nat) returns (n: u64)
      modifies this`trace
      ensures n == answers.tensor(value).stringBytes
      ensures trace == old(trace) + [GetStringTensorDataLength(value)]
    {
      n := answers.tensor(value).stringBytes;
      trace := trace + [GetStringTensorDataLength(value)];
    }

    /** `GetStringTensorContent` writes the concatenated strings and the
        start offsets into the caller's two buffers. */
    method StringTensorContent(value: nat, buf: array<byte>, offsets: array<usize>)
      modifies this`trace, buf, offsets
      ensures buf[..] == Overwrite(old(buf[..]), answers.tensor(value).stringContent)
      ensures offsets[..] == Overwrite(old(offsets[..]), answers.tensor(value).stringOffsets)
      ensures trace == old(trace) + [GetStringTensorContent(value, buf.Length, offsets.Length)]
    {
      var rec := answers.tensor(value);
      forall i | 0 <= i < buf.Length && i < |rec.stringContent| {
        buf[i] := rec.stringContent[i];
      }
      forall i | 0 <= i < offsets.Length && i < |rec.stringOffsets| {
        offsets[i] := rec.stringOffsets[i];
      }
      trace := trace + [GetStringTensorContent(value, buf.Length, offsets.Length)];
    }

    /** `GetTensorMutableData` hands out the tensor's own data buffer. */
    method TensorMutableData(value: nat)
      modifies this`trace
      ensures trace == old(trace) + [GetTensorMutableData(value)]
    {
      trace := trace + [GetTensorMutableData(value)];
    }

    /** `KernelInfoGetAttribute_string` with a null buffer: asks for the size. */
    method AttributeSize(name: seq<byte>) returns (r: Reply<usize>)
      modifies this`trace
      ensures r == answers.attributeSize(name) && trace == old(trace) + [GetAttributeSize(name)]
    {
      r := answers.attributeSize(name);
      trace := trace + [GetAttributeSize(name)];
    }

    /** `KernelInfoGetAttribute_string` with a buffer: fills it. */
    method AttributeString(name: seq<byte>, buf: array<byte>) returns (s: Status)
      modifies this`trace, buf
      ensures s == answers.attributeFill(name)
      ensures buf[..] == Overwrite(old(buf[..]), answers.attributeBytes(name))
      ensures trace == old(trace) + [GetAttributeString(name, buf.Length)]
    {
      var content := answers.attributeBytes(name);
      forall i | 0 <= i < buf.Length && i < |content| {
        buf[i] := content[i];
      }
      s := answers.attributeFill(name);
      trace := trace + [GetAttributeString(name, buf.Length)];
    }

    method NewCustomOpDomain(name: seq<byte>) returns (r: Reply<nat>)
      modifies this`trace
      ensures r == answers.createDomain(name) && trace == old(trace) + [CreateCustomOpDomain(name)]
    {
      r := answers.createDomain(name);
      trace := trace + [CreateCustomOpDomain(name)];
    }

    method AddDomainToOptions(options: nat, domain: nat) returns (s: Status)
      modifies this`trace
      ensures s == answers.addDomain(options, domain)
      ensures trace == old(trace) + [AddCustomOpDomain(options, domain)]
    {
      s := answers.addDomain(options, domain);
      trace := trace + [AddCustomOpDomain(options, domain)];
    }

    method AddOpToDomain(domain: nat, op: nat) returns (s: Status)
      modifies this`trace
      ensures s == answers.addOp(domain, op) && trace == old(trace) + [CustomOpDomainAdd(domain, op)]
    {
      s := answers.addOp(domain, op);
      trace := trace + [CustomOpDomainAdd(domain, op)];
    }
  }
}
