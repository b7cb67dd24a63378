/** The safe wrappers of `api.rs`: kernel context, kernel info, tensor values,
    shape infos, output values, session options and custom-op domains. Each
    wrapper holds the `Runtime` it calls into. Every method is proved against
    a specification function of the runtime's answers (what it returns) and
    a list of the foreign calls it makes (what it asks the runtime). */
module Api {
  import opened OrtTypes
  import opened Utf8
  import opened NdShape
  import opened StringTensor
  import opened Host

  const FAILED_TO_GET_INPUT: seq<byte> := Ascii("Failed to get input")
  const NO_VALUE_FOUND: seq<byte> := Ascii("No value found")

  // ----- Pure parts of the wrappers -----

  /** `status_to_result(call)?` followed by `Ok(out)`: the out-parameter when
      the call succeeded, its status unchanged otherwise. */
  function OutOrStatus<T>(reply: Reply<T>): (r: Outcome<T>)
    ensures r.Ok? <==> reply.status.Null?
    ensures r.Ok? ==> r.value == reply.out
    ensures !r.Ok? ==> r == Err(reply.status)
  {
    var bridged := StatusToResult(reply.status);
    if bridged.Ok? then Ok(reply.out) else Err(bridged.status)
  }

  /** `.map(|el| el as usize)` over the dimensions. */
  function DimsAsShape(dims: seq<i64>): (shape: seq<usize>)
    ensures |shape| == |dims|
    ensures forall i :: 0 <= i < |dims| && dims[i] >= 0 ==> shape[i] == dims[i]
  {
    seq(|dims|, i requires 0 <= i < |dims| => I64AsUsize(dims[i]))
  }

  /** `.map(|el| *el as i64)` over a requested shape. */
  function ShapeAsI64(shape: seq<usize>): (dims: seq<i64>)
    ensures |dims| == |shape|
    ensures forall i :: 0 <= i < |shape| && shape[i] < I64_LIMIT ==> dims[i] == shape[i]
  {
    seq(|shape|, i requires 0 <= i < |shape| => UsizeAsI64(shape[i]))
  }

  /** The two casts undo each other, so the shape sent to the runtime is the
      requested shape, bit for bit. */
  lemma {:induction false} ShapeCastRoundTrip(shape: seq<usize>)
    ensures DimsAsShape(ShapeAsI64(shape)) == shape
  {
    var back := DimsAsShape(ShapeAsI64(shape));
    forall i | 0 <= i < |shape| ensures back[i] == shape[i] {
      CastsAreInverse(ShapeAsI64(shape)[i], shape[i]);
    }
  }

  /** A dense view over host memory: element `k` of the view is the host's
      element `k` (the element type and the numbers are not modelled). */
  function Positions(n: nat): (p: seq<nat>)
    ensures |p| == n && forall k :: 0 <= k < n ==> p[k] == k
  {
    seq(n, k => k)
  }

  /** `CString::from_vec_with_nul(buf).unwrap().into_string().unwrap()`. */
  function CStringIntoString(buf: seq<byte>): (r: Outcome<seq<byte>>)
    ensures !r.Err?
    ensures r.Ok? ==> r.value + [0] == buf && 0 !in r.value && ValidUtf8(r.value)
    ensures r.Panic? ==> r.reason == UnwrapFromVecWithNul || r.reason == UnwrapIntoString
  {
    if |buf| == 0 || buf[|buf| - 1] != 0 || 0 in buf[..|buf| - 1] then Panic(UnwrapFromVecWithNul)
    else if !ValidUtf8(buf[..|buf| - 1]) then Panic(UnwrapIntoString)
    else Ok(buf[..|buf| - 1])
  }

  /** The conversion accepts exactly a NUL-free, valid UTF-8 string followed
      by one NUL, and gives that string back. */
  lemma CStringRoundTrip(s: seq<byte>, buf: seq<byte>)
    ensures CStringIntoString(s + [0]).Ok? <==> 0 !in s && ValidUtf8(s)
    ensures CStringIntoString(s + [0]).Ok? ==> CStringIntoString(s + [0]).value == s
    ensures CStringIntoString(buf).Ok? <==> exists t :: buf == t + [0] && 0 !in t && ValidUtf8(t)
  {
    assert (s + [0])[..|s|] == s;
    if exists t :: buf == t + [0] && 0 !in t && ValidUtf8(t) {
      var t :| buf == t + [0] && 0 !in t && ValidUtf8(t);
      assert buf[..|buf| - 1] == t;
    }
    if CStringIntoString(buf).Ok? {
      var t := CStringIntoString(buf).value;
      assert buf == t + [0] && 0 !in t && ValidUtf8(t);
    }
  }

  // ----- What the wrappers return, as functions of the runtime's answers -----

  /** The byte buffer of `get_tensor_data_str` after GetStringTensorContent. */
  function StringBuffer(rec: TensorRecord): (buf: seq<byte>)
    ensures |buf| == rec.stringBytes
  {
    Overwrite(Filled(rec.stringBytes, 0), rec.stringContent)
  }

  /** The offsets buffer of `get_tensor_data_str` after GetStringTensorContent. */
  function OffsetBuffer(rec: TensorRecord): (offsets: seq<usize>)
    ensures |offsets| == rec.elementCount
  {
    Overwrite(Filled(rec.elementCount, 0), rec.stringOffsets)
  }

  /** `Value::get_tensor_data_str`: the element count (its status checked),
      the decode of the string buffer, then the reshape to the dimensions. */
  function ReadStrings(rec: TensorRecord): (r: Outcome<NdArray<seq<byte>>>)
    ensures r.Err? <==> rec.countStatus.Error?
    ensures r.Err? ==> r.status == rec.countStatus
    ensures r.Ok? ==> r.value.shape == DimsAsShape(rec.dims)
    ensures r.Ok? ==> |r.value.data| == rec.elementCount == Product(r.value.shape)
  {
    if rec.countStatus.Error? then Err(rec.countStatus)
    else
      var strings := Decode(OffsetBuffer(rec), rec.stringBytes, StringBuffer(rec));
      if !strings.Ok? then Panic(strings.reason)
      else ShapeOrPanic(strings.value, DimsAsShape(rec.dims), ShapeIncorrect)
  }

  /** Every string read is valid UTF-8 and is the piece of the buffer between
      its offset and the next one (the byte count after the last). */
  lemma ReadStringsPieces(rec: TensorRecord)
    requires ReadStrings(rec).Ok?
    ensures var b, buf, strings := OffsetBuffer(rec) + [rec.stringBytes], StringBuffer(rec), ReadStrings(rec).value.data;
      && Splits(b, buf)
      && forall i :: 0 <= i < |strings| ==> strings[i] == Piece(b, buf, i) && ValidUtf8(strings[i])
  {
    DecodeSpec(OffsetBuffer(rec), rec.stringBytes, StringBuffer(rec));
  }

  /** A runtime that packs a list of valid strings the documented way (all
      bytes concatenated, one start offset per string) has them read back
      unchanged and in order; the read panics exactly when the dimensions
      hold a different number of elements. */
  lemma ReadStringsOfPacked(rec: TensorRecord, strings: seq<seq<byte>>)
    requires rec.countStatus.Null? && rec.elementCount == |strings|
    requires rec.stringContent == Concat(strings) && rec.stringBytes == |Concat(strings)|
    requires rec.stringOffsets == StartOffsets(strings)
    requires forall k :: 0 <= k < |strings| ==> ValidUtf8(strings[k])
    ensures Product(DimsAsShape(rec.dims)) == |strings| ==>
      ReadStrings(rec) == Ok(NdArray(DimsAsShape(rec.dims), strings))
    ensures Product(DimsAsShape(rec.dims)) != |strings| ==> ReadStrings(rec) == Panic(ShapeIncorrect)
  {
    assert StringBuffer(rec) == Concat(strings);
    assert OffsetBuffer(rec) == StartOffsets(strings);
    EncodeDecode(strings);
  }

  /** `Value::get_tensor_data`: a view of the runtime's data with as many
      elements as the shape info reports, reshaped to the dimensions. */
  function ReadDense(rec: TensorRecord): (r: Outcome<NdArray<nat>>)
    ensures r.Err? <==> rec.countStatus.Error?
    ensures r.Err? ==> r.status == rec.countStatus
    ensures r.Ok? <==> rec.countStatus.Null? && Product(DimsAsShape(rec.dims)) == rec.elementCount
    ensures r.Panic? ==> r.reason == ShapeIncorrect
    ensures r.Ok? ==> r.value.shape == DimsAsShape(rec.dims) && |r.value.data| == rec.elementCount
  {
    if rec.countStatus.Error? then Err(rec.countStatus)
    else ShapeOrPanic(Positions(rec.elementCount), DimsAsShape(rec.dims), ShapeIncorrect)
  }

  /** A successful dense read addresses the runtime's buffer in row-major
      order: the element at index `idx` is the runtime's element
      `FlatIndex(shape, idx)`, and every runtime element is reached. */
  lemma ReadDenseRowMajor(rec: TensorRecord)
    requires ReadDense(rec).Ok?
    ensures var a := ReadDense(rec).value;
      && |a.data| == Product(a.shape)
      && (forall idx :: InBounds(a.shape, idx) ==> At(a, idx) == FlatIndex(a.shape, idx))
      && (forall k :: 0 <= k < rec.elementCount ==> At(a, Unflatten(a.shape, k)) == k)
  {
    ShapeOrPanicKeepsElements(Positions(rec.elementCount), DimsAsShape(rec.dims), ShapeIncorrect);
  }

  /** `OutputValue::get_tensor_data_mut`: ask the runtime for the output of
      the requested shape; a null value is the error "No value found" (with
      code `ORT_OK`); otherwise a view with as many elements as the new tensor's own
      shape info reports, reshaped to the requested shape. */
  function OutputView(w: Answers, index: u64, shape: seq<usize>): (r: Outcome<NdArray<nat>>)
    ensures w.output(index, ShapeAsI64(shape)).status.Error? ==> r == Err(w.output(index, ShapeAsI64(shape)).status)
    ensures var reply := w.output(index, ShapeAsI64(shape));
      reply.status.Null? && reply.out.NullPtr? ==> r == Err(Error(ORT_OK, NO_VALUE_FOUND))
    ensures var reply := w.output(index, ShapeAsI64(shape));
      reply.status.Null? && reply.out.Ptr? && w.tensor(reply.out.addr).countStatus.Error? ==>
      r == Err(w.tensor(reply.out.addr).countStatus)
    ensures r.Ok? ==>
      var reply := w.output(index, ShapeAsI64(shape));
      && reply.status.Null? && reply.out.Ptr?
      && r.value.shape == shape
      && |r.value.data| == w.tensor(reply.out.addr).elementCount == Product(shape)
    ensures r.Panic? ==> r.reason == UnwrapShapeError
  {
    var reply := w.output(index, ShapeAsI64(shape));
    if reply.status.Error? then Err(reply.status)
    else if reply.out.NullPtr? then Err(Error(ORT_OK, NO_VALUE_FOUND))
    else
      var rec := w.tensor(reply.out.addr);
      if rec.countStatus.Error? then Err(rec.countStatus)
      else
        match IntoShape(Positions(rec.elementCount), shape)
        case Some(a) => Ok(a)
        case None => Panic(UnwrapShapeError)
  }

  /** The output view is the requested shape exactly when the runtime's
      tensor holds as many elements as that shape; otherwise it panics. */
  lemma OutputViewShape(w: Answers, index: u64, shape: seq<usize>)
    requires w.output(index, ShapeAsI64(shape)).status.Null?
    requires w.output(index, ShapeAsI64(shape)).out.Ptr?
    requires w.tensor(w.output(index, ShapeAsI64(shape)).out.addr).countStatus.Null?
    ensures var count := w.tensor(w.output(index, ShapeAsI64(shape)).out.addr).elementCount;
      && (OutputView(w, index, shape).Ok? <==> Product(shape) == count)
      && (Product(shape) != count ==> OutputView(w, index, shape) == Panic(UnwrapShapeError))
      && (Product(shape) == count ==> OutputView(w, index, shape) == Ok(NdArray(shape, Positions(count))))
  {
  }

  /** `KernelInfo::get_attribute_string`: a size query whose error is
      returned, a buffer of exactly that size filled by a second call whose
      error panics, and the conversion of the buffer to a string. */
  function AttributeString(w: Answers, name: seq<byte>): (r: Outcome<seq<byte>>)
    ensures r.Err? <==> 0 !in name && w.attributeSize(name).status.Error?
    ensures r.Err? ==> r.status == w.attributeSize(name).status
    ensures 0 in name ==> r == Panic(UnwrapNulError)
    ensures 0 !in name && w.attributeSize(name).status.Null? && w.attributeFill(name).Error? ==>
      r == Panic(UnwrapStatus)
    ensures 0 !in name && w.attributeSize(name).status.Null? && w.attributeFill(name).Null? ==>
      && (r.Ok? <==> exists t :: AttributeBuffer(w, name) == t + [0] && 0 !in t && ValidUtf8(t))
      && (!r.Ok? ==> r == Panic(UnwrapFromVecWithNul) || r == Panic(UnwrapIntoString))
    ensures r.Ok? ==> r.value + [0] == AttributeBuffer(w, name) && 0 !in r.value && ValidUtf8(r.value)
  {
    if 0 in name then Panic(UnwrapNulError)
    else
      var size := w.attributeSize(name);
      if size.status.Error? then Err(size.status)
      else if w.attributeFill(name).Error? then Panic(UnwrapStatus)
      else
        CStringRoundTrip([], AttributeBuffer(w, name));
        CStringIntoString(AttributeBuffer(w, name))
  }

  /** The attribute buffer after the second call: as many zero bytes as the
      size query reported, overwritten by what the runtime writes. */
  function AttributeBuffer(w: Answers, name: seq<byte>): (buf: seq<byte>)
    ensures |buf| == w.attributeSize(name).out
  {
    Overwrite(Filled(w.attributeSize(name).out, 0), w.attributeBytes(name))
  }

  /** When the runtime reports the size of the string plus its NUL and then
      writes the string and the NUL, the attribute is read back unchanged. */
  lemma AttributeRoundTrip(w: Answers, name: seq<byte>, s: seq<byte>)
    requires 0 !in name && 0 !in s && ValidUtf8(s)
    requires w.attributeSize(name) == Reply(Null, |s| + 1)
    requires w.attributeFill(name) == Null && w.attributeBytes(name) == s + [0]
    ensures AttributeString(w, name) == Ok(s)
  {
    var buf := Overwrite(Filled(|s| + 1, 0), s + [0]);
    assert buf == s + [0];
    CStringRoundTrip(s, buf);
  }

  /** A size larger than the string plus its NUL leaves a NUL inside the
      buffer, and the conversion panics. */
  lemma AttributeOversizedPanics(w: Answers, name: seq<byte>, s: seq<byte>)
    requires 0 !in name
    requires w.attributeSize(name).status.Null? && w.attributeSize(name).out > |s| + 1
    requires w.attributeFill(name) == Null && w.attributeBytes(name) == s + [0]
    ensures AttributeString(w, name) == Panic(UnwrapFromVecWithNul)
  {
    var n := w.attributeSize(name).out;
    var buf := Overwrite(Filled(n, 0), s + [0]);
    assert buf[|s|] == 0 && buf[n - 1] == 0;
    assert buf[..n - 1][|s|] == 0;
  }

  /** Size 5 with the bytes "val" and a NUL written: the buffer is
      "val\0\0", whose first NUL is not its last byte, so the read panics
      rather than returning "val". */
  lemma AttributeFiveBytesForVal(w: Answers, name: seq<byte>)
    requires 0 !in name
    requires w.attributeSize(name) == Reply(Null, 5)
    requires w.attributeFill(name) == Null && w.attributeBytes(name) == [0x76, 0x61, 0x6C, 0]
    ensures AttributeString(w, name) == Panic(UnwrapFromVecWithNul)
  {
    AttributeOversizedPanics(w, name, [0x76, 0x61, 0x6C]);
  }

  // ----- The foreign calls each wrapper makes -----

  /** A temporary shape info for `value`: acquired, used by `inner`, and
      released when the statement that created it ends. */
  function InfoScope(value: nat, info: nat, inner: seq<Call>): seq<Call>
  {
    [GetTensorTypeAndShape(value, info)] + inner + [ReleaseTensorTypeAndShapeInfo(info)]
  }

  function CountCalls(value: nat, info: nat): seq<Call>
  {
    InfoScope(value, info, [GetTensorShapeElementCount(info)])
  }

  function DimsCalls(value: nat, info: nat, rank: nat): seq<Call>
  {
    InfoScope(value, info, [GetDimensionsCount(info), GetDimensions(info, rank)])
  }

  /** Calls of a read: the element count under a first info; when it
      succeeded, the `middle` calls; and when the data was obtained, the
      dimensions under a second info. `first` is the first new info handle. */
  function ReadCalls(value: nat, first: nat, rank: nat, counted: bool, middle: seq<Call>, shaped: bool): seq<Call>
  {
    CountCalls(value, first) + ReadTail(value, first, rank, counted, middle, shaped)
  }

  /** Calls of `get_tensor_data_str`: the dimensions are read only when the
      decode did not panic. */
  function StringReadCalls(rec: TensorRecord, value: nat, first: nat): seq<Call>
  {
    ReadCalls(value, first, |rec.dims|, rec.countStatus.Null?,
      [GetStringTensorDataLength(value), GetStringTensorContent(value, rec.stringBytes, rec.elementCount)],
      Decode(OffsetBuffer(rec), rec.stringBytes, StringBuffer(rec)).Ok?)
  }

  /** Calls of `get_tensor_data`. */
  function DenseReadCalls(rec: TensorRecord, value: nat, first: nat): seq<Call>
  {
    ReadCalls(value, first, |rec.dims|, rec.countStatus.Null?, [GetTensorMutableData(value)], true)
  }

  /** Calls of `get_tensor_data_mut`. */
  function OutputCalls(w: Answers, index: u64, shape: seq<usize>, first: nat): seq<Call>
  {
    var reply := w.output(index, ShapeAsI64(shape));
    [GetOutput(index, ShapeAsI64(shape))] +
    if reply.status.Error? then []
    else if reply.out.NullPtr? then [CreateStatus(ORT_OK, NO_VALUE_FOUND)]
    else
      CountCalls(reply.out.addr, first) +
      if w.tensor(reply.out.addr).countStatus.Error? then [] else [GetTensorMutableData(reply.out.addr)]
  }

  /** Calls of `get_attribute_string`. */
  function AttributeCalls(w: Answers, name: seq<byte>): seq<Call>
  {
    if 0 in name then []
    else
      [GetAttributeSize(name)] +
      if w.attributeSize(name).status.Error? then []
      else [GetAttributeString(name, w.attributeSize(name).out)]
  }

  /** The shape infos a list of calls acquires, and those it releases. */
  function Acquired(calls: seq<Call>): multiset<nat>
  {
    if calls == [] then multiset{}
    else (if calls[0].GetTensorTypeAndShape? then multiset{calls[0].info} else multiset{}) + Acquired(calls[1..])
  }

  function Released(calls: seq<Call>): multiset<nat>
  {
    if calls == [] then multiset{}
    else (if calls[0].ReleaseTensorTypeAndShapeInfo? then multiset{calls[0].info} else multiset{}) + Released(calls[1..])
  }

  lemma {:induction false} AcquiredReleasedAppend(a: seq<Call>, b: seq<Call>)
    ensures Acquired(a + b) == Acquired(a) + Acquired(b)
    ensures Released(a + b) == Released(a) + Released(b)
    decreases |a|
  {
    if a == [] {
      assert a + b == b;
    } else {
      assert (a + b)[0] == a[0] && (a + b)[1..] == a[1..] + b;
      AcquiredReleasedAppend(a[1..], b);
    }
  }

  /** Calls that neither acquire nor release a shape info. */
  lemma {:induction false} NoInfoCalls(calls: seq<Call>)
    requires forall i :: 0 <= i < |calls| ==>
      !calls[i].GetTensorTypeAndShape? && !calls[i].ReleaseTensorTypeAndShapeInfo?
    ensures Acquired(calls) == multiset{} && Released(calls) == multiset{}
    decreases |calls|
  {
    if calls != [] {
      NoInfoCalls(calls[1..]);
    }
  }

  /** A scope acquires its info once and releases it once. */
  lemma InfoScopeBalanced(value: nat, info: nat, inner: seq<Call>)
    requires forall i :: 0 <= i < |inner| ==>
      !inner[i].GetTensorTypeAndShape? && !inner[i].ReleaseTensorTypeAndShapeInfo?
    ensures Acquired(InfoScope(value, info, inner)) == multiset{info}
    ensures Released(InfoScope(value, info, inner)) == multiset{info}
  {
    var open, close := [GetTensorTypeAndShape(value, info)], [ReleaseTensorTypeAndShapeInfo(info)];
    NoInfoCalls(inner);
    AcquiredReleasedAppend(open, inner);
    AcquiredReleasedAppend(open + inner, close);
    assert Acquired(close) == multiset{} && Released(open) == multiset{};
  }

  /** One scope for `first` followed by calls that at most handle `first + 1`. */
  lemma BalancedConcat(a: seq<Call>, b: seq<Call>, first: nat)
    requires Acquired(a) == Released(a) == multiset{first}
    requires Acquired(b) == Released(b) && Acquired(b) <= multiset{first + 1}
    ensures Acquired(a + b) == Released(a + b) == multiset{first} + Acquired(b)
    ensures first in Acquired(a + b) && Acquired(a + b) <= multiset{first, first + 1}
    ensures Acquired(b) == multiset{first + 1} ==> Acquired(a + b) == multiset{first, first + 1}
  {
    AcquiredReleasedAppend(a, b);
  }

  /** The calls of a read after its element count. */
  function ReadTail(value: nat, first: nat, rank: nat, counted: bool, middle: seq<Call>, shaped: bool): seq<Call>
  {
    if !counted then [] else middle + if !shaped then [] else DimsCalls(value, first + 1, rank)
  }

  /** What follows the element count handles at most the second info, and
      releases it when it acquires it. */
  lemma ReadTailBalanced(value: nat, first: nat, rank: nat, counted: bool, middle: seq<Call>, shaped: bool)
    requires forall i :: 0 <= i < |middle| ==>
      !middle[i].GetTensorTypeAndShape? && !middle[i].ReleaseTensorTypeAndShapeInfo?
    ensures var tail := ReadTail(value, first, rank, counted, middle, shaped);
      && Acquired(tail) == Released(tail) && Acquired(tail) <= multiset{first + 1}
      && (counted && shaped ==> Acquired(tail) == multiset{first + 1})
  {
    NoInfoCalls(middle);
    if counted && !shaped {
      assert ReadTail(value, first, rank, counted, middle, shaped) == middle;
    } else if counted {
      var dims := DimsCalls(value, first + 1, rank);
      InfoScopeBalanced(value, first + 1, [GetDimensionsCount(first + 1), GetDimensions(first + 1, rank)]);
      AcquiredReleasedAppend(middle, dims);
    }
  }

  /** Every shape info a read acquires is released exactly once: one for
      the element count, and one for the dimensions when the read got that
      far. */
  lemma ReadReleasesEveryInfo(value: nat, first: nat, rank: nat, counted: bool, middle: seq<Call>, shaped: bool)
    requires forall i :: 0 <= i < |middle| ==>
      !middle[i].GetTensorTypeAndShape? && !middle[i].ReleaseTensorTypeAndShapeInfo?
    ensures var calls := ReadCalls(value, first, rank, counted, middle, shaped);
      && Acquired(calls) == Released(calls)
      && first in Acquired(calls) && Acquired(calls) <= multiset{first, first + 1}
      && (counted && shaped ==> Acquired(calls) == multiset{first, first + 1})
  {
    var count, tail := CountCalls(value, first), ReadTail(value, first, rank, counted, middle, shaped);
    assert ReadCalls(value, first, rank, counted, middle, shaped) == count + tail;
    InfoScopeBalanced(value, first, [GetTensorShapeElementCount(first)]);
    ReadTailBalanced(value, first, rank, counted, middle, shaped);
    BalancedConcat(count, tail, first);
  }

  /** The string read and the dense read release every info they acquire. */
  lemma StringAndDenseReadsRelease(rec: TensorRecord, value: nat, first: nat)
    ensures Acquired(StringReadCalls(rec, value, first)) == Released(StringReadCalls(rec, value, first))
    ensures Acquired(StringReadCalls(rec, value, first)) <= multiset{first, first + 1}
    ensures Acquired(DenseReadCalls(rec, value, first)) == Released(DenseReadCalls(rec, value, first))
    ensures Acquired(DenseReadCalls(rec, value, first)) == multiset{first, first + 1} || rec.countStatus.Error?
  {
    var decoded := Decode(OffsetBuffer(rec), rec.stringBytes, StringBuffer(rec)).Ok?;
    ReadReleasesEveryInfo(value, first, |rec.dims|, rec.countStatus.Null?,
      [GetStringTensorDataLength(value), GetStringTensorContent(value, rec.stringBytes, rec.elementCount)], decoded);
    ReadReleasesEveryInfo(value, first, |rec.dims|, rec.countStatus.Null?, [GetTensorMutableData(value)], true);
  }

  /** And for an output: the new tensor's info is released exactly once; a
      failed output makes no call after GetOutput, and a null one only the
      creation of its status. */
  lemma OutputReleasesEveryInfo(w: Answers, index: u64, shape: seq<usize>, first: nat)
    ensures var calls := OutputCalls(w, index, shape, first);
      && Acquired(calls) == Released(calls) && Acquired(calls) <= multiset{first}
    ensures var reply := w.output(index, ShapeAsI64(shape));
      reply.status.Error? ==> OutputCalls(w, index, shape, first) == [GetOutput(index, ShapeAsI64(shape))]
    ensures var reply := w.output(index, ShapeAsI64(shape));
      reply.status.Null? && reply.out.NullPtr? ==>
      OutputCalls(w, index, shape, first) == [GetOutput(index, ShapeAsI64(shape)), CreateStatus(ORT_OK, NO_VALUE_FOUND)]
  {
    OutputCallsBalanced(w, index, shape, first);
  }

  lemma OutputCallsBalanced(w: Answers, index: u64, shape: seq<usize>, first: nat)
    ensures var calls := OutputCalls(w, index, shape, first);
      && Acquired(calls) == Released(calls) && Acquired(calls) <= multiset{first}
  {
    var reply := w.output(index, ShapeAsI64(shape));
    var head: seq<Call> := [GetOutput(index, ShapeAsI64(shape))];
    var tail := OutputCalls(w, index, shape, first)[1..];
    assert OutputCalls(w, index, shape, first) == head + tail;
    NoInfoCalls(head);
    if reply.status.Null? && reply.out.Ptr? {
      OutputTailBalanced(w.tensor(reply.out.addr), reply.out.addr, first);
    } else {
      NoInfoCalls(tail);
    }
    AcquiredReleasedAppend(head, tail);
  }

  /** The calls after a non-null output: a count under one info, then the data. */
  lemma OutputTailBalanced(rec: TensorRecord, v: nat, first: nat)
    ensures var calls := CountCalls(v, first) + if rec.countStatus.Error? then [] else [GetTensorMutableData(v)];
      && Acquired(calls) == Released(calls) && Acquired(calls) <= multiset{first}
  {
    InfoScopeBalanced(v, first, [GetTensorShapeElementCount(first)]);
    var data: seq<Call> := if rec.countStatus.Error? then [] else [GetTensorMutableData(v)];
    NoInfoCalls(data);
    AcquiredReleasedAppend(CountCalls(v, first), data);
  }

  // ----- The wrappers -----

  /** `Api::create_error_status`: a new status with that code and message;
      a message with an interior NUL makes `str_to_c_char_ptr` panic before
      the runtime is called. */
  method CreateErrorStatus(api: Runtime, code: u32, message: seq<byte>) returns (s: Outcome<Status>)
    modifies api`trace
    ensures 0 in message ==> s == Panic(UnwrapNulError) && api.trace == old(api.trace)
    ensures 0 !in message ==>
      s == Ok(Error(code, message)) && api.trace == old(api.trace) + [CreateStatus(code, message)]
  {
    if 0 in message {
      return Panic(UnwrapNulError);
    }
    var status := api.CreateStatusFor(code, message);
    s := Ok(status);
  }

  datatype TensorTypeAndShapeInfo = TensorTypeAndShapeInfo(api: Runtime, info: nat)
  {
    /** `get_dimensions`: a vector of exactly as many dimensions as the
        runtime counts, filled by the runtime. */
    method GetDimensions() returns (dims: seq<i64>)
      requires api.Valid() && info in api.live
      modifies api`trace
      ensures dims == api.answers.tensor(api.infoValue[info]).dims
      ensures api.trace == old(api.trace) + [GetDimensionsCount(info), Call.GetDimensions(info, |dims|)]
    {
      var n := api.DimensionsCount(info);
      var out := new i64[n](_ => 0);
      api.Dimensions(info, out);
      dims := out[..];
    }

    /** `get_tensor_shape_element_count`: the count, or the runtime's error. */
    method GetTensorShapeElementCount() returns (r: Outcome<u64>)
      requires api.Valid() && info in api.live
      modifies api`trace
      ensures var rec := api.answers.tensor(api.infoValue[info]);
        r == OutOrStatus(Reply(rec.countStatus, rec.elementCount))
      ensures api.trace == old(api.trace) + [Call.GetTensorShapeElementCount(info)]
    {
      var reply := api.TensorShapeElementCount(info);
      r := OutOrStatus(reply);
    }

    /** `Drop`: releases the info; it must still be live, so it is released
        at most once. */
    method Drop()
      requires api.Valid() && info in api.live
      modifies api`trace, api`live
      ensures api.Valid() && api.live == old(api.live) - {info}
      ensures api.trace == old(api.trace) + [ReleaseTensorTypeAndShapeInfo(info)]
    {
      api.ReleaseInfo(info);
    }
  }

  datatype Value = Value(api: Runtime, handle: nat)
  {
    /** `get_tensor_type_and_shape`: a new, live info describing this value. */
    method GetTensorTypeAndShape() returns (info: TensorTypeAndShapeInfo)
      requires api.Valid()
      modifies api`trace, api`live, api`nextInfo, api`infoValue
      ensures api.Valid() && info.api == api
      ensures info.info == old(api.nextInfo) && info.info !in old(api.live)
      ensures api.live == old(api.live) + {info.info} && api.nextInfo == old(api.nextInfo) + 1
      ensures api.infoValue == old(api.infoValue)[info.info := handle]
      ensures api.trace == old(api.trace) + [Call.GetTensorTypeAndShape(handle, info.info)]
    {
      var i := api.AcquireTensorTypeAndShape(handle);
      info := TensorTypeAndShapeInfo(api, i);
    }

    /** `get_tensor_type_and_shape()?.get_tensor_shape_element_count()?`:
        the info is released whether or not the count succeeds. */
    method ElementCount() returns (r: Outcome<u64>)
      requires api.Valid()
      modifies api`trace, api`live, api`nextInfo, api`infoValue
      ensures api.Valid() && api.live == old(api.live) && api.nextInfo == old(api.nextInfo) + 1
      ensures r == OutOrStatus(Reply(api.answers.tensor(handle).countStatus, api.answers.tensor(handle).elementCount))
      ensures api.trace == old(api.trace) + CountCalls(handle, old(api.nextInfo))
    {
      var info := GetTensorTypeAndShape();
      r := info.GetTensorShapeElementCount();
      info.Drop();
    }

    /** The dimensions from a second info, cast to `usize`; the info is
        released at the end of the block. */
    method Dims() returns (shape: seq<usize>)
      requires api.Valid()
      modifies api`trace, api`live, api`nextInfo, api`infoValue
      ensures api.Valid() && api.live == old(api.live) && api.nextInfo == old(api.nextInfo) + 1
      ensures shape == DimsAsShape(api.answers.tensor(handle).dims)
      ensures api.trace == old(api.trace) + DimsCalls(handle, old(api.nextInfo), |api.answers.tensor(handle).dims|)
    {
      var info := GetTensorTypeAndShape();
      var dims := info.GetDimensions();
      info.Drop();
      shape := DimsAsShape(dims);
    }

    /** `get_tensor_data_str`. */
    method GetTensorDataStr() returns (r: Outcome<NdArray<seq<byte>>>)
      requires api.Valid()
      modifies api`trace, api`live, api`nextInfo, api`infoValue
      ensures api.Valid() && api.live == old(api.live)
      ensures r == ReadStrings(api.answers.tensor(handle))
      ensures api.trace == old(api.trace) + StringReadCalls(api.answers.tensor(handle), handle, old(api.nextInfo))
    {
      ghost var rec, first, before := api.answers.tensor(handle), api.nextInfo, api.trace;
      var itemCount := ElementCount();
      if !itemCount.Ok? {
        return Err(itemCount.status);
      }
      var strings := DecodeContent(itemCount.value);
      ghost var middle := [GetStringTensorDataLength(handle), GetStringTensorContent(handle, rec.stringBytes, rec.elementCount)];
      if !strings.Ok? {
        assert api.trace == before + (CountCalls(handle, first) + middle);
        return Panic(strings.reason);
      }
      var shape := Dims();
      assert api.trace == before + (CountCalls(handle, first) + (middle + DimsCalls(handle, first + 1, |rec.dims|)));
      r := ShapeOrPanic(strings.value, shape, ShapeIncorrect);
    }

    /** The string buffer and offsets of `get_tensor_data_str`, allocated for
        `itemCount` strings, filled by the runtime and decoded. */
    method DecodeContent(itemCount: u64) returns (strings: Outcome<seq<seq<byte>>>)
      requires itemCount == api.answers.tensor(handle).elementCount
      modifies api`trace
      ensures strings == Decode(OffsetBuffer(api.answers.tensor(handle)), api.answers.tensor(handle).stringBytes, StringBuffer(api.answers.tensor(handle)))
      ensures api.trace == old(api.trace) + [GetStringTensorDataLength(handle), GetStringTensorContent(handle, api.answers.tensor(handle).stringBytes, itemCount)]
    {
      var nonNullBytes := api.StringTensorDataLength(handle);
      var buf := new byte[nonNullBytes](_ => 0);
      var offsets := new usize[itemCount](_ => 0);
      assert buf[..] == Filled(nonNullBytes, 0) && offsets[..] == Filled(itemCount, 0);
      api.StringTensorContent(handle, buf, offsets);
      strings := Decode(offsets[..], nonNullBytes, buf[..]);
    }

    /** `get_tensor_data`. */
    method GetTensorData() returns (r: Outcome<NdArray<nat>>)
      requires api.Valid()
      modifies api`trace, api`live, api`nextInfo, api`infoValue
      ensures api.Valid() && api.live == old(api.live)
      ensures r == ReadDense(api.answers.tensor(handle))
      ensures api.trace == old(api.trace) + DenseReadCalls(api.answers.tensor(handle), handle, old(api.nextInfo))
    {
      var elementCount := ElementCount();
      if !elementCount.Ok? {
        return Err(elementCount.status);
      }
      api.TensorMutableData(handle);
      var data := Positions(elementCount.value);
      var shape := Dims();
      r := ShapeOrPanic(data, shape, ShapeIncorrect);
    }
  }

  datatype OutputValue = OutputValue(api: Runtime, index: u64)
  {
    /** `get_tensor_data_mut`. */
    method GetTensorDataMut(shape: seq<usize>) returns (r: Outcome<NdArray<nat>>)
      requires api.Valid()
      modifies api`trace, api`live, api`nextInfo, api`infoValue
      ensures api.Valid() && api.live == old(api.live)
      ensures r == OutputView(api.answers, index, shape)
      ensures api.trace == old(api.trace) + OutputCalls(api.answers, index, shape, old(api.nextInfo))
    {
      var dims := ShapeAsI64(shape);
      var reply := api.KernelContextGetOutput(index, dims);
      var got := StatusToResult(reply.status);
      if !got.Ok? {
        return Err(got.status);
      }
      if reply.out.NullPtr? {
        var s := CreateErrorStatus(api, ORT_OK, NO_VALUE_FOUND);
        return if s.Ok? then Err(s.value) else Panic(UnwrapNulError);
      }
      var value := Value(api, reply.out.addr);
      var elementCount := value.ElementCount();
      if !elementCount.Ok? {
        return Err(elementCount.status);
      }
      api.TensorMutableData(value.handle);
      var data := Positions(elementCount.value);
      r := match IntoShape(data, shape)
        case Some(a) => Ok(a)
        case None => Panic(UnwrapShapeError);
    }
  }

  datatype KernelContext = KernelContext(api: Runtime)
  {
    /** `get_input_value`: the runtime's error unchanged; a null value after
        success becomes the error "Failed to get input" (code ORT_FAIL) and
        no value is built. */
    method GetInputValue(index: u64) returns (r: Outcome<Value>)
      modifies api`trace
      ensures var reply := api.answers.input(index);
        && (reply.status.Error? ==>
              r == Err(reply.status) && api.trace == old(api.trace) + [GetInput(index)])
        && (reply.status.Null? && reply.out.NullPtr? ==>
              && r == Err(Error(ORT_FAIL, FAILED_TO_GET_INPUT))
              && api.trace == old(api.trace) + [GetInput(index), CreateStatus(ORT_FAIL, FAILED_TO_GET_INPUT)])
        && (reply.status.Null? && reply.out.Ptr? ==>
              r == Ok(Value(api, reply.out.addr)) && api.trace == old(api.trace) + [GetInput(index)])
    {
      var reply := api.KernelContextGetInput(index);
      var got := StatusToResult(reply.status);
      if !got.Ok? {
        return Err(got.status);
      }
      if reply.out.NullPtr? {
        var s := CreateErrorStatus(api, ORT_FAIL, FAILED_TO_GET_INPUT);
        var failed := if s.Ok? then StatusToResult(s.value) else Panic(UnwrapNulError);
        return if failed.Err? then Err(failed.status) else Panic(UnwrapNulError);
      }
      r := Ok(Value(api, reply.out.addr));
    }

    /** `get_safe_output`: a deferred output on the same runtime; no call is
        made until a shape is supplied. */
    function GetSafeOutput(index: u64): (o: OutputValue)
      ensures o.api == api && o.index == index
    {
      OutputValue(api, index)
    }

    /** `get_output_count`. */
    method GetOutputCount() returns (r: Outcome<u64>)
      modifies api`trace
      ensures r == OutOrStatus(api.answers.outputCount)
      ensures api.trace == old(api.trace) + [Call.GetOutputCount]
    {
      var reply := api.KernelContextGetOutputCount();
      r := OutOrStatus(reply);
    }

    /** `get_input_count`. */
    method GetInputCount() returns (r: Outcome<u64>)
      modifies api`trace
      ensures r == OutOrStatus(api.answers.inputCount)
      ensures api.trace == old(api.trace) + [Call.GetInputCount]
    {
      var reply := api.KernelContextGetInputCount();
      r := OutOrStatus(reply);
    }
  }

  datatype KernelInfo = KernelInfo(api: Runtime)
  {
    /** `get_attribute_string`: the buffer passed to the second call has
        exactly the size the first call reported. */
    method GetAttributeString(name: seq<byte>) returns (r: Outcome<seq<byte>>)
      modifies api`trace
      ensures r == AttributeString(api.answers, name)
      ensures api.trace == old(api.trace) + AttributeCalls(api.answers, name)
    {
      if 0 in name {
        return Panic(UnwrapNulError);
      }
      var size := api.AttributeSize(name);
      var got := StatusToResultDbg(size.status);
      if !got.Ok? {
        return Err(got.status);
      }
      var buf := new byte[size.out](_ => 0);
      assert buf[..] == Filled(size.out, 0);
      var filled := api.AttributeString(name, buf);
      if !StatusToResult(filled).Ok? {
        return Panic(UnwrapStatus);
      }
      r := CStringIntoString(buf[..]);
    }
  }

  datatype SessionOptions = SessionOptions(api: Runtime, options: nat)
  {
    /** `create_custom_op_domain`: a domain name with a NUL panics before any
        call; a failed creation is returned and AddCustomOpDomain is never
        called; a failed registration is returned too. */
    method CreateCustomOpDomain(domain: seq<byte>) returns (r: Outcome<CustomOpDomain>)
      modifies api`trace
      ensures 0 in domain ==> r == Panic(UnwrapNulError) && api.trace == old(api.trace)
      ensures 0 !in domain ==>
        var created := api.answers.createDomain(domain);
        if created.status.Error? then
          r == Err(created.status) && api.trace == old(api.trace) + [Call.CreateCustomOpDomain(domain)]
        else
          && api.trace == old(api.trace) + [Call.CreateCustomOpDomain(domain), AddCustomOpDomain(options, created.out)]
          && r == if api.answers.addDomain(options, created.out).Error?
                  then Err(api.answers.addDomain(options, created.out))
                  else Ok(CustomOpDomain(api, created.out))
    {
      if 0 in domain {
        return Panic(UnwrapNulError);
      }
      var created := api.NewCustomOpDomain(domain);
      var got := StatusToResult(created.status);
      if !got.Ok? {
        return Err(got.status);
      }
      var added := api.AddDomainToOptions(options, created.out);
      var registered := StatusToResult(added);
      if !registered.Ok? {
        return Err(registered.status);
      }
      r := Ok(CustomOpDomain(api, created.out));
    }
  }

  datatype CustomOpDomain = CustomOpDomain(api: Runtime, domain: nat)
  {
    /** `add_op_to_domain`: the runtime's status, bridged. */
    method AddOpToDomain(op: nat) returns (r: Outcome<()>)
      modifies api`trace
      ensures r == StatusToResult(api.answers.addOp(domain, op))
      ensures api.trace == old(api.trace) + [CustomOpDomainAdd(domain, op)]
    {
      var s := api.AddOpToDomain(domain, op);
      r := StatusToResult(s);
    }
  }
}
