# onnx-custom-op: the safe wrapper over the ONNX Runtime C API

This project models `onnx-custom-op/src/api.rs` in Dafny. That file holds the
safe Rust wrappers a custom-operator kernel uses to talk to ONNX Runtime:

- `KernelContext` reads input values and hands out outputs;
- `KernelInfo` reads string attributes;
- `Value` reads string tensors and dense tensors as N-dimensional arrays;
- `TensorTypeAndShapeInfo` reports element counts and dimensions, and releases itself on drop;
- `OutputValue` gives a mutable view of an output of a requested shape;
- `SessionOptions` and `CustomOpDomain` register operators;
- `ElementType` maps element types to their runtime codes;
- `status_to_result` bridges the runtime's status pointers to Rust results.

The runtime itself is foreign code. `Host.Runtime` stands for it:

- a constant table of what every foreign call answers;
- a ghost trace of the calls the wrappers make;
- the set of shape-info handles handed out and not yet released.

Each wrapper is a `method` on a datatype that holds the runtime. Each is
proved against two things. The first is a pure function of the runtime's
answers, which says what the wrapper returns. The second is a function
listing the foreign calls it makes, in order. Lemmas then prove what those
functions promise:

- the string-tensor decode inverts the runtime's packing;
- reshaping neither pads nor truncates, and indexes in row-major order;
- every shape info acquired is released exactly once;
- the attribute read returns what the runtime stored;
- the status bridge loses nothing.

A call returns one of three `Outcome`s:

- `Ok`;
- `Err`, carrying the runtime's non-null status;
- `Panic`, naming the failing `unwrap`, `expect` or overflow check as a `Fault`.

Strings are their UTF-8 bytes. Integers are the source's fixed widths (`u32`,
`u64`, `usize` = 64 bits, `i64`), and the `as` casts are written out as
two's-complement reinterpretations. Arithmetic follows a debug build, so
`end - start` panics when it would underflow.

## Model

| member | source | states |
|---|---|---|
| OrtTypes.StatusToResult | onnx-custom-op/src/api.rs:447-453 | a null status is `Ok(())`. Any other status is `Err` carrying that same status (both directions). |
| OrtTypes.StatusToResultDbg | onnx-custom-op/src/api.rs:456-464 | the same bridge as `status_to_result`. Its message printing is commented out. |
| OrtTypes.StatusBridgeRoundTrip | onnx-custom-op/src/api.rs:447-464 | the bridge and its inverse undo each other on every status and every non-panicking unit result. The debug variant agrees with the plain one. |
| OrtTypes.I64AsUsize | onnx-custom-op/src/api.rs:256 | `el as usize` keeps the 64 bits (equal modulo 2^64), and is the identity on non-negative values. |
| OrtTypes.UsizeAsI64 | onnx-custom-op/src/api.rs:363 | `*el as i64` keeps the 64 bits, and is the identity below 2^63. |
| OrtTypes.CastsAreInverse | onnx-custom-op/src/api.rs:256-363 | the two casts are inverse bijections between `i64` and `usize`. |
| Api.DimsAsShape | onnx-custom-op/src/api.rs:252-258 | the dimensions cast to `usize`: as many entries as dimensions, and non-negative ones unchanged. |
| Api.ShapeAsI64 | onnx-custom-op/src/api.rs:363 | the requested shape cast to `i64`: same length, and entries below 2^63 unchanged. |
| Api.ShapeCastRoundTrip | onnx-custom-op/src/api.rs:363-391 | the `i64` shape sent to the runtime casts back to exactly the requested shape. |
| Api.OutOrStatus | onnx-custom-op/src/api.rs:129-135 | `status_to_result(call)?; Ok(out)`: `Ok` with the out-parameter exactly when the status is null, otherwise `Err` with that status. |
| Api.CStringIntoString | onnx-custom-op/src/api.rs:185-188 | `from_vec_with_nul(..).unwrap().into_string().unwrap()` never returns `Err`. Its `Ok` value plus one NUL is the buffer, holds no NUL, and is valid UTF-8. |
| Api.CStringRoundTrip | onnx-custom-op/src/api.rs:185-188 | the conversion accepts exactly a NUL-free, valid UTF-8 string followed by one NUL, and returns that string. |
| Api.CreateErrorStatus | onnx-custom-op/src/api.rs:82-85 | a message with a NUL panics in `str_to_c_char_ptr` (lines 440-442) with no call made. Otherwise one `CreateStatus` call yields the error status carrying that code and message. |
| Api.KernelContext.GetInputValue | onnx-custom-op/src/api.rs:98-114 | the runtime's error is returned unchanged. A null value after success becomes `Err` "Failed to get input" with code `ORT_FAIL`, after one `CreateStatus` call. Otherwise the result is a `Value` on that handle. Each case states the calls made. |
| Api.KernelContext.GetSafeOutput | onnx-custom-op/src/api.rs:121-127 | an output on the same runtime with that index. No call is made. |
| Api.KernelContext.GetOutputCount | onnx-custom-op/src/api.rs:129-135 | the count or the runtime's error, after exactly one `KernelContext_GetOutputCount` call. |
| Api.KernelContext.GetInputCount | onnx-custom-op/src/api.rs:137-144 | the count or the runtime's error, after exactly one `KernelContext_GetInputCount` call. |
| Api.AttributeString | onnx-custom-op/src/api.rs:155-189 | these cases, in order: a name with a NUL panics; an error from the size query is returned as `Err` (iff); an error from the fill panics. When both calls succeed, the read succeeds iff the filled buffer (`AttributeBuffer`: the reported size of zero bytes, overwritten by what the runtime wrote) is a NUL-free, valid UTF-8 string followed by one NUL; it then returns that buffer minus its NUL, and otherwise panics in `from_vec_with_nul` or `into_string`. |
| Api.AttributeRoundTrip | onnx-custom-op/src/api.rs:155-189 | when the runtime reports the string's length plus one and writes the string and a NUL, the string is read back unchanged. |
| Api.AttributeOversizedPanics | onnx-custom-op/src/api.rs:175-188 | a reported size larger than the string plus its NUL leaves a second NUL in the buffer, and the read panics in `from_vec_with_nul`. |
| Api.AttributeFiveBytesForVal | onnx-custom-op/src/api.rs:175-188 | a size of 5 with "val" and its NUL written panics rather than returning "val". |
| Api.KernelInfo.GetAttributeString | onnx-custom-op/src/api.rs:155-189 | returns `AttributeString` of the runtime's answers. It makes the size query, then the fill with a buffer of exactly the reported size, and no other call. |
| StringTensor.Windows | onnx-custom-op/src/api.rs:236-241 | one (start, end) window per offset, whose start is that offset. |
| StringTensor.WindowsArePairs | onnx-custom-op/src/api.rs:236-241 | the windows are the consecutive pairs of the offsets followed by the byte count. |
| StringTensor.Scan | onnx-custom-op/src/api.rs:242-249 | the scan never returns `Err`. When it succeeds it yields one string per window. |
| StringTensor.Decode | onnx-custom-op/src/api.rs:236-249 | the decode never returns `Err`. When it succeeds it yields one string per offset. |
| StringTensor.ScanStopsEarly | onnx-custom-op/src/api.rs:243-247 | a first window that runs backwards, overruns the rest of the buffer or cuts invalid UTF-8 stops the scan. Such boundaries do not split the buffer. |
| StringTensor.ScanStep | onnx-custom-op/src/api.rs:243-247 | a sound first window yields its bytes, and the scan goes on over the remaining bytes. |
| StringTensor.ScanCons | onnx-custom-op/src/api.rs:243-247 | one scan step: the first `end - start` bytes become the first string, and the rest is scanned. |
| StringTensor.ScanSucceeds | onnx-custom-op/src/api.rs:242-249 | scanning consecutive boundaries succeeds iff they never decrease, stay within the buffer and cut valid UTF-8. |
| StringTensor.ScanPieces | onnx-custom-op/src/api.rs:242-249 | after a successful scan, string `k` is the bytes between boundaries `k` and `k + 1`. |
| StringTensor.FitsStep | onnx-custom-op/src/api.rs:244-245 | cutting off the first piece leaves boundaries that fit the remaining bytes (iff), and that piece is the front of the buffer. |
| StringTensor.PieceStep | onnx-custom-op/src/api.rs:244-245 | piece `k` of the rest is piece `k + 1` of the whole. |
| StringTensor.SplitsStep | onnx-custom-op/src/api.rs:244-247 | boundaries split the buffer iff the first piece is valid UTF-8 and the rest split the remaining bytes. |
| StringTensor.DecodeSpec | onnx-custom-op/src/api.rs:236-249 | the decode succeeds iff the offsets, followed by the byte count, never decrease and cut valid UTF-8. String `i` is then the bytes between boundary `i` and boundary `i + 1`, both counted from the first offset, as the scan cuts them. |
| StringTensor.DecodePanicsOnBackwardWindow | onnx-custom-op/src/api.rs:243-244 | an offset greater than the next boundary (or the last offset beyond the byte count) makes the decode panic. |
| StringTensor.EncodeDecode | onnx-custom-op/src/api.rs:220-249 | valid strings packed as the runtime packs them are decoded back unchanged and in order. |
| StringTensor.DecodeEncode | onnx-custom-op/src/api.rs:220-249 | with 0-based offsets, a successful decode returns these strings: each is `buf[offset_i .. offset_i+1]`, they concatenate to the whole buffer, and their start offsets are the offsets read. |
| StringTensor.DecodeExample | onnx-custom-op/src/api.rs:236-249 | "abbc" with offsets [0, 1, 3] decodes to "a", "bb", "c". |
| StringTensor.ConcatPrefix | onnx-custom-op/src/api.rs:220-221 | the concatenation of the first `i` strings is a prefix of the concatenation of all. |
| StringTensor.PackedPieces | onnx-custom-op/src/api.rs:220-233 | the packed start offsets start at 0, never decrease, and cut the buffer back into the original strings. |
| StringTensor.PiecesAreSlices | onnx-custom-op/src/api.rs:243-245 | with 0-based boundaries, piece `i` is the slice between boundaries `i` and `i + 1`. |
| StringTensor.PiecesStartAtBoundaries | onnx-custom-op/src/api.rs:236-241 | the start offsets of the pieces are the boundaries they were cut at. |
| StringTensor.ConcatOfPieces | onnx-custom-op/src/api.rs:243-245 | the first `i` pieces concatenate to the bytes before boundary `i`. |
| Utf8.LeadingCharWidth | onnx-custom-op/src/api.rs:247 | the width of the well-formed character that starts the bytes (at most 4, and never more than the bytes), or 0. Every byte after the first is a continuation byte. |
| Utf8.AsciiIsValid | onnx-custom-op/src/api.rs:247 | ASCII bytes are valid UTF-8. |
| Utf8.ConcatIsValid | onnx-custom-op/src/api.rs:247 | valid UTF-8 is closed under concatenation. |
| NdShape.FlatIndex | onnx-custom-op/src/api.rs:259-261 | the row-major position of an in-bounds index lies below the element count. |
| NdShape.Unflatten | onnx-custom-op/src/api.rs:259-261 | every position below the element count has an in-bounds index, which `FlatIndex` maps back to that position. |
| NdShape.FlatIndexInjective | onnx-custom-op/src/api.rs:259-261 | distinct in-bounds indices have distinct positions. |
| NdShape.IntoShape | onnx-custom-op/src/api.rs:259-261 | `into_shape` succeeds iff the shape holds as many elements as the data, and keeps the data and that shape. |
| NdShape.ShapeOrPanic | onnx-custom-op/src/api.rs:259-261 | `into_shape(..).expect(..)` never returns `Err`. |
| NdShape.ShapeOrPanicKeepsElements | onnx-custom-op/src/api.rs:259-261 | the reshape succeeds iff the counts agree, and otherwise panics with the given fault. On success, the element at each index is the flat element at its row-major position, and every flat element is reached. |
| NdShape.ReshapeTwoByThree | onnx-custom-op/src/api.rs:259-261 | 1..6 with shape [2, 3] is [[1, 2, 3], [4, 5, 6]]. |
| Api.ReadStrings | onnx-custom-op/src/api.rs:204-262 | `Err` iff the element count failed, with that status. On success: the shape is the cast dimensions, and the strings number exactly the element count and the shape's product. |
| Api.ReadStringsPieces | onnx-custom-op/src/api.rs:236-249 | every string read is valid UTF-8 and is the piece of the buffer between its offset and the next (the byte count after the last), both counted from the first offset. |
| Api.ReadStringsOfPacked | onnx-custom-op/src/api.rs:204-262 | strings packed as the runtime documents are read back unchanged, in order, with the runtime's shape. When the dimensions hold a different count, the read panics with "Shape information was incorrect.". |
| Api.Value.GetTensorDataStr | onnx-custom-op/src/api.rs:204-262 | returns `ReadStrings` of the tensor. It makes exactly the calls listed by `StringReadCalls`. No shape info stays live. |
| Api.Value.DecodeContent | onnx-custom-op/src/api.rs:213-250 | the buffers hold exactly `non_null_bytes` bytes and `item_count` offsets. The runtime fills them, and they are decoded by `Decode`. |
| Api.Value.ElementCount | onnx-custom-op/src/api.rs:209-211 | the count or its error, from a fresh shape info that is released again. |
| Api.Value.Dims | onnx-custom-op/src/api.rs:252-258 | the cast dimensions, from a fresh shape info that is released again. |
| Api.ReadDense | onnx-custom-op/src/api.rs:264-288 | `Err` iff the element count failed, with that status. `Ok` iff the count succeeded and the dimensions hold exactly that many elements. Otherwise it panics with "Shape information was incorrect.". |
| Api.ReadDenseRowMajor | onnx-custom-op/src/api.rs:264-288 | a successful dense read addresses the runtime's buffer in row-major order, and reaches every one of its elements. |
| Api.Value.GetTensorData | onnx-custom-op/src/api.rs:264-288 | returns `ReadDense` of the tensor, making exactly the calls listed by `DenseReadCalls`. No shape info stays live. |
| Api.Value.GetTensorTypeAndShape | onnx-custom-op/src/api.rs:290-299 | a new, previously unused shape info for this value. It is now live. |
| Api.TensorTypeAndShapeInfo.GetDimensions | onnx-custom-op/src/api.rs:313-322 | exactly the runtime's dimensions, read through a buffer of exactly `GetDimensionsCount` entries. |
| Api.TensorTypeAndShapeInfo.GetTensorShapeElementCount | onnx-custom-op/src/api.rs:324-330 | the runtime's element count, or its error unchanged. |
| Api.TensorTypeAndShapeInfo.Drop | onnx-custom-op/src/api.rs:339-343 | releases the info, which must be live, so no info is released twice. |
| Api.ReadReleasesEveryInfo | onnx-custom-op/src/api.rs:204-288 | the calls of a read release every shape info they acquire, exactly once. These are the count's info and, when the read gets that far, the dimensions' info. |
| Api.StringAndDenseReadsRelease | onnx-custom-op/src/api.rs:204-288 | `get_tensor_data_str` and `get_tensor_data` acquire and release the same infos. A dense read whose count succeeded uses exactly two. |
| Api.OutputView | onnx-custom-op/src/api.rs:360-393 | returns one of these: the runtime's error; `Err` "No value found" with code `ORT_OK` for a null value; the element count's error; a panic from `unwrap()` on a shape mismatch; or a view with exactly the requested shape and element count. |
| Api.OutputViewShape | onnx-custom-op/src/api.rs:381-392 | the view succeeds iff the runtime's element count equals the product of the requested shape, and otherwise panics. |
| Api.OutputValue.GetTensorDataMut | onnx-custom-op/src/api.rs:360-393 | returns `OutputView` of the runtime's answers, making exactly the calls listed by `OutputCalls`. No shape info stays live. |
| Api.OutputReleasesEveryInfo | onnx-custom-op/src/api.rs:360-393 | the output's shape info is released exactly once. A failed output makes no call after `GetOutput`, and a null output makes exactly one more, the `CreateStatus` of "No value found". |
| ElementTypes.ElementType.ToOrtEncoding | onnx-custom-op/src/api.rs:396-405 | every variant has a non-zero code, one of FLOAT=1, INT32=6, INT64=7, STRING=8, DOUBLE=11. Only `String` maps to STRING. |
| ElementTypes.FromOrtEncoding | onnx-custom-op/src/api.rs:396-405 | a code names an element type iff it is one of the five. |
| ElementTypes.EncodingRoundTrip | onnx-custom-op/src/api.rs:396-405 | the encoding is a bijection between the five variants and the five codes. |
| Api.SessionOptions.CreateCustomOpDomain | onnx-custom-op/src/api.rs:419-437 | these cases, in order: a name with a NUL panics before any call; a failed creation is returned and `AddCustomOpDomain` is not called; a failed registration is returned. Otherwise the result is the new domain. Each case states the calls made. |
| Api.CustomOpDomain.AddOpToDomain | onnx-custom-op/src/api.rs:352-356 | the runtime's status, bridged, after exactly one `CustomOpDomain_Add` call. |

## Left out

- The foreign function interface itself is not modelled: raw pointers, `unsafe`, lifetimes, and `&mut *ptr` on a pointer the runtime returned. Runtime objects are natural-number handles, and a null pointer is `NullPtr`.
- The element type `T` and the numbers in dense tensors are not modelled. `std::slice::from_raw_parts(ptr, n)` is modelled as the view of host positions `0 .. n`, so the model states which host element each index reaches, not its value.
- `Api::from_raw`, `KernelContext::from_raw`, `KernelInfo::from_ort` and `SessionOptions::from_ort` only store their arguments, and are not modelled. The last one also selects API version 12.
- The `Deref` for `Api` is not modelled: it only forwards to the function table.
- The empty `Drop for Value` is not modelled: it does nothing.
- `ExecutionProviders::as_c_char_ptr` is not modelled: it returns a constant string.
- `get_attribute_array`, `get_value_type` and `get_tensor_element_type` are `unimplemented!()`, and are not modelled.
- Memory leaks are not modelled: the `into_raw` of `str_to_c_char_ptr`, and the domain that is never released. Memory is not part of the model.
- Concurrency and thread safety are not modelled.
- The statuses of `GetTensorTypeAndShape`, `GetStringTensorDataLength`, `GetStringTensorContent`, `GetDimensionsCount`, `GetDimensions` and `GetTensorMutableData` are modelled as always success, because the wrappers ignore them. A failing runtime there would leave a null or partly written out-parameter, which the model does not represent.
- The second size that `KernelInfoGetAttribute_string` writes back is ignored by the wrapper, and is not modelled.
- NdShape.IntoShape: does not model `ndarray`'s `size_of_shape_checked` guard, which rejects a shape whose product of non-zero axes exceeds `isize::MAX`; `ndarray` is not part of this model. `IntoShape` compares only the unbounded product with the length, so dimensions `[-1, 0]` (cast to `[2^64 - 1, 0]`) over no elements panic in the program but reshape in the model.
- Release-build arithmetic is not modelled. In a release build `end - start` would wrap instead of panicking.
- Panic messages are not modelled: a `Fault` names the failing check.
- The runtime's answers are fixed for one invocation. The model does not capture a runtime whose answers change between calls.

Reading a string attribute succeeds only when the runtime's size query
reports the length of the string plus one. A runtime that reports size 5 and
then writes "val" and a NUL leaves the buffer "val\0\0", which
`CString::from_vec_with_nul` rejects because its first NUL is not its last
byte: `Api.AttributeFiveBytesForVal` proves that this read panics, and
`Api.AttributeRoundTrip` proves that the size 4 reads "val" back. The
"No value found" error of `get_tensor_data_mut` uses code 0 (`ORT_OK`), as the
code does, even though the status it builds stands for an error.
