/** Helpers of the executable semantics: their effects and return values. */
module ObjHelpers {
  import opened Wrappers
  import opened Instructions
  import opened ObjState

  datatype HelperId =
    | MapLookupElem
    | MapUpdateElem
    | MapDeleteElem
    | ProbeRead
    | KtimeGetNs
    | TracePrintk
    | GetPrandomU32
    | GetCurrentPidTgid
    | GetCurrentUidGid
    | GetCurrentComm
    | GetCurrentTask
    | ProbeReadStr
    | ProbeReadUser
    | ProbeReadKernel
    | ProbeReadKernelStr
    | KtimeGetBootNs
    | RingbufReserve
    | RingbufSubmit
    | RingbufDiscard
    | DPath
    | GetCurrentTaskBtf
    | UnknownHelper(number: nat)

  datatype HelperRet = RetScalar | RetMapPtr | RetRingBufPtr | RetErrorCode

  datatype HelperEffect = NoEffect | WriteMapValue | ReadIntoPtr

  datatype HelperSpec = HelperSpec(argsUsed: seq<RegId>, ret: HelperRet, effect: HelperEffect)

  function GetHelperSpec(id: HelperId): Option<HelperSpec> {
    match id
    case MapLookupElem => Some(HelperSpec([1, 2], RetMapPtr, NoEffect))
    case MapUpdateElem => Some(HelperSpec([1, 2, 3, 4], RetErrorCode, WriteMapValue))
    case MapDeleteElem => Some(HelperSpec([1, 2], RetErrorCode, WriteMapValue))
    case ProbeRead => Some(HelperSpec([1, 2, 3], RetErrorCode, ReadIntoPtr))
    case ProbeReadStr => Some(HelperSpec([1, 2, 3], RetErrorCode, ReadIntoPtr))
    case ProbeReadUser => Some(HelperSpec([1, 2, 3], RetErrorCode, ReadIntoPtr))
    case ProbeReadKernel => Some(HelperSpec([1, 2, 3], RetErrorCode, ReadIntoPtr))
    case ProbeReadKernelStr => Some(HelperSpec([1, 2, 3], RetErrorCode, ReadIntoPtr))
    case DPath => Some(HelperSpec([1, 2, 3], RetErrorCode, ReadIntoPtr))
    case GetCurrentComm => Some(HelperSpec([1, 2], RetErrorCode, ReadIntoPtr))
    case KtimeGetNs => Some(HelperSpec([], RetScalar, NoEffect))
    case KtimeGetBootNs => Some(HelperSpec([], RetScalar, NoEffect))
    case GetPrandomU32 => Some(HelperSpec([], RetScalar, NoEffect))
    case GetCurrentPidTgid => Some(HelperSpec([], RetScalar, NoEffect))
    case GetCurrentUidGid => Some(HelperSpec([], RetScalar, NoEffect))
    case GetCurrentTask => Some(HelperSpec([], RetScalar, NoEffect))
    case GetCurrentTaskBtf => Some(HelperSpec([], RetScalar, NoEffect))
    case TracePrintk => Some(HelperSpec([1, 2], RetErrorCode, NoEffect))
    case RingbufReserve => Some(HelperSpec([1, 2, 3], RetRingBufPtr, NoEffect))
    case RingbufSubmit => Some(HelperSpec([1, 2], RetErrorCode, NoEffect))
    case RingbufDiscard => Some(HelperSpec([1, 2], RetErrorCode, NoEffect))
    case UnknownHelper(_) => None
  }

  /** A helper that reads into a buffer writes a placeholder at the frame address in r1, in bounds or not. */
  function ApplyEffect(st: State, effect: HelperEffect): State {
    if effect.ReadIntoPtr? && st.regs[1].FramePtr?
    then st.(stack := StackWrite(st.stack, st.regs[1].offset, W64, 0))
    else st
  }

  function ReturnMapPtr(st: State): State {
    st.SetReg(0, MapValuePtr(st.nextMapId)).(nextMapId := st.nextMapId + 1)
  }

  function ReturnRingBufPtr(st: State): State {
    st.SetReg(0, RingBufPtr(st.nextMapId)).(nextMapId := st.nextMapId + 1)
  }

  /** Give the map value just handed out a value to be read. */
  function Populate(st: State, id: nat): State {
    st.(mapValues := [(id, 0)] + st.mapValues)
  }

  function ExecHelper(st0: State, spec: HelperSpec): State {
    var st := ApplyEffect(st0, spec.effect);
    match spec.ret
    case RetMapPtr => Populate(ReturnMapPtr(st), st.nextMapId)
    case RetRingBufPtr => ReturnRingBufPtr(st)
    case RetScalar => st.SetReg(0, Scalar(0))
    case RetErrorCode => st.SetReg(0, Scalar(0))
  }

  /** Without null-safety evidence, the value behind a map pointer stays undefined. */
  function ExecHelperSafe(st0: State, spec: HelperSpec, nullSafe: bool): State {
    var st := ApplyEffect(st0, spec.effect);
    match spec.ret
    case RetMapPtr =>
      if nullSafe then Populate(ReturnMapPtr(st), st.nextMapId) else ReturnMapPtr(st)
    case RetRingBufPtr => ReturnRingBufPtr(st)
    case RetScalar => st.SetReg(0, Scalar(0))
    case RetErrorCode => st.SetReg(0, Scalar(0))
  }
}
