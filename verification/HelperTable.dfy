/** The kernel helpers a program may call: what they take and what they return. */
module HelperTable {
  import opened Wrappers

  datatype HelperReturn = RetScalar | RetMapPtr | RetRingBufPtr | RetErrorCode | RetKernelPtr

  datatype ArgType =
    | AnyArg
    | ScalarArg
    | PtrToStack
    | MapPtr
    | PtrToMapKey
    | PtrToMapValue
    | Size
    | PtrToRingBuf
    | Flags
    | PtrToMem
    | PtrToReadonlyMem

  /** `args` lists the types of r1, r2, ...; registers beyond it are not read. */
  datatype HelperSpec = HelperSpec(ret: HelperReturn, args: seq<ArgType>)

  /** The registered helper with this number, if there is one. */
  function GetHelper(id: int): (h: Option<HelperSpec>)
    ensures h.Some? ==> |h.value.args| <= 5
  {
    match id
    case 1 => Some(HelperSpec(RetMapPtr, [MapPtr, PtrToMapKey]))
    case 2 => Some(HelperSpec(RetErrorCode, [MapPtr, PtrToMapKey, PtrToMapValue, Flags]))
    case 3 => Some(HelperSpec(RetErrorCode, [MapPtr, PtrToMapKey]))
    case 4 => Some(HelperSpec(RetErrorCode, [PtrToMem, Size, ScalarArg]))
    case 5 => Some(HelperSpec(RetScalar, []))
    case 6 => Some(HelperSpec(RetErrorCode, [PtrToReadonlyMem, Size]))
    case 7 => Some(HelperSpec(RetScalar, []))
    case 14 => Some(HelperSpec(RetScalar, []))
    case 15 => Some(HelperSpec(RetScalar, []))
    case 16 => Some(HelperSpec(RetErrorCode, [PtrToMem, Size]))
    case 35 => Some(HelperSpec(RetKernelPtr, []))
    case 45 => Some(HelperSpec(RetErrorCode, [PtrToMem, Size, AnyArg]))
    case 112 => Some(HelperSpec(RetErrorCode, [PtrToMem, Size, ScalarArg]))
    case 113 => Some(HelperSpec(RetErrorCode, [PtrToMem, Size, ScalarArg]))
    case 115 => Some(HelperSpec(RetErrorCode, [PtrToMem, Size, ScalarArg]))
    case 125 => Some(HelperSpec(RetScalar, []))
    case 131 => Some(HelperSpec(RetRingBufPtr, [MapPtr, Size, Flags]))
    case 132 => Some(HelperSpec(RetErrorCode, [PtrToRingBuf, Flags]))
    case 133 => Some(HelperSpec(RetErrorCode, [PtrToRingBuf, Flags]))
    case 147 => Some(HelperSpec(RetErrorCode, [ScalarArg, PtrToMem, Size]))
    case 158 => Some(HelperSpec(RetKernelPtr, []))
    case 181 => Some(HelperSpec(RetScalar, [ScalarArg, AnyArg, AnyArg, Flags]))
    case _ => None
  }
}
