/** The element types a custom operator can declare, and their codes in the
    runtime's `ONNXTensorElementDataType` enumeration (the `TensorProto`
    data-type numbering of the ONNX standard). */
module ElementTypes {
  import opened OrtTypes

  const ONNX_TENSOR_ELEMENT_DATA_TYPE_FLOAT: u32 := 1
  const ONNX_TENSOR_ELEMENT_DATA_TYPE_INT32: u32 := 6
  const ONNX_TENSOR_ELEMENT_DATA_TYPE_INT64: u32 := 7
  const ONNX_TENSOR_ELEMENT_DATA_TYPE_STRING: u32 := 8
  const ONNX_TENSOR_ELEMENT_DATA_TYPE_DOUBLE: u32 := 11

  datatype ElementType = F32 | F64 | I32 | I64 | String
  {
    /** `to_ort_encoding`: the runtime's code for this element type. Every
        variant has a code, none is 0 (`UNDEFINED`), and each is one of the
        five codes the runtime assigns to these types. */
    function ToOrtEncoding(): (code: u32)
      ensures code != 0
      ensures code in {ONNX_TENSOR_ELEMENT_DATA_TYPE_FLOAT, ONNX_TENSOR_ELEMENT_DATA_TYPE_INT32,
                       ONNX_TENSOR_ELEMENT_DATA_TYPE_INT64, ONNX_TENSOR_ELEMENT_DATA_TYPE_STRING,
                       ONNX_TENSOR_ELEMENT_DATA_TYPE_DOUBLE}
      ensures code == ONNX_TENSOR_ELEMENT_DATA_TYPE_STRING <==> this == String
    {
      match this
      case F32 => ONNX_TENSOR_ELEMENT_DATA_TYPE_FLOAT
      case F64 => ONNX_TENSOR_ELEMENT_DATA_TYPE_DOUBLE
      case I32 => ONNX_TENSOR_ELEMENT_DATA_TYPE_INT32
      case I64 => ONNX_TENSOR_ELEMENT_DATA_TYPE_INT64
      case String => ONNX_TENSOR_ELEMENT_DATA_TYPE_STRING
    }
  }

  /** The element type a runtime code stands for, when it is one of the five. */
  function FromOrtEncoding(code: u32): (t: Option<ElementType>)
    ensures t.Some? <==> code in {1, 6, 7, 8, 11}
  {
    if code == ONNX_TENSOR_ELEMENT_DATA_TYPE_FLOAT then Some(F32)
    else if code == ONNX_TENSOR_ELEMENT_DATA_TYPE_DOUBLE then Some(F64)
    else if code == ONNX_TENSOR_ELEMENT_DATA_TYPE_INT32 then Some(I32)
    else if code == ONNX_TENSOR_ELEMENT_DATA_TYPE_INT64 then Some(I64)
    else if code == ONNX_TENSOR_ELEMENT_DATA_TYPE_STRING then Some(String)
    else None
  }

  /** The encoding is a bijection between the five variants and the five
      codes: it loses no variant, and no two variants share a code. */
  lemma EncodingRoundTrip(t: ElementType, u: ElementType, code: u32)
    ensures FromOrtEncoding(t.ToOrtEncoding()) == Some(t)
    ensures t.ToOrtEncoding() == u.ToOrtEncoding() ==> t == u
    ensures FromOrtEncoding(code).Some? ==> FromOrtEncoding(code).value.ToOrtEncoding() == code
  {
  }
}
