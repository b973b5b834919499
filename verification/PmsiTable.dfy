/** The transition tables of the two PMSI controllers for one cache line: the L1
    cache controller and the directory (shared memory) controller.  A pair of
    state and event that has no transition is `Undefined`: the generated
    controller stops the simulation there. */
module PmsiTable {
  import opened Wrappers

  /** States of a line in a private cache. */
  datatype CState =
    | I | S | M
    | IS_AD | IS_D | IS_DI | IS_A
    | IM_AD | IM_D | IM_A | IM_DS | IM_DI | IM_DSI
    | SM_AD | SM_A | SM_D | SM_DS | SM_DSI | SM_DI
    | MI_A | MS_A | II_A
    | SM_W | IM_W
    | MS_WB | MI_WB

  /** Demand requests that a cache puts on the bus. */
  datatype Request = GETS | GETM | UPG

  datatype CpuOp = Load | Store | Replacement

  datatype Event =
    | Cpu(op: CpuOp)
    | Own(req: Request)
    | Other(req: Request)
    | OwnPUTM
    | OtherPUTM
    | Data

  datatype Hit = NoHit | LoadHit | StoreHit

  /** What one transition does: the next state, a request put in the demand
      queue (`side` marks the GETM that follows a lost upgrade in the same slot),
      a PUTM put in the write-back queue, whether the incoming block is copied
      into the line, which processor access completes, and whether the line is
      sent to the directory. */
  datatype Outcome =
    | Undefined
    | Stall
    | Go(next: CState, issue: Option<Request>, side: bool, putm: bool, fill: bool, hit: Hit, send: bool)

  function To(st: CState): Outcome {
    Go(st, None, false, false, false, NoHit, false)
  }

  function Issues(st: CState, r: Request, side: bool): Outcome {
    Go(st, Some(r), side, false, false, NoHit, false)
  }

  function PutsM(st: CState): Outcome {
    Go(st, None, false, true, false, NoHit, false)
  }

  function Sends(st: CState): Outcome {
    Go(st, None, false, false, false, NoHit, true)
  }

  function Completes(st: CState, hit: Hit): Outcome {
    Go(st, None, false, false, false, hit, false)
  }

  function Fills(st: CState, hit: Hit, putm: bool, send: bool): Outcome {
    Go(st, None, false, putm, true, hit, send)
  }

  function CacheStep(st: CState, ev: Event): Outcome {
    match ev
    case Cpu(Load) => OnLoad(st)
    case Cpu(Store) => OnStore(st)
    case Cpu(Replacement) => OnReplacement(st)
    case Own(GETS) => OnOwnGETS(st)
    case Own(GETM) => OnOwnGETM(st)
    case Own(UPG) => OnOwnUPG(st)
    case Other(GETS) => OnOtherGETS(st)
    case Other(GETM) => OnOtherGETM(st)
    case Other(UPG) => OnOtherUPG(st)
    case OwnPUTM => OnOwnPUTM(st)
    case OtherPUTM => OnOtherPUTM(st)
    case Data => OnData(st)
  }

  /** A load or store of the processor is in progress on a line in this state; the
      sequencer then lets no other access to the line through. */
  predicate Outstanding(st: CState) {
    !st.I? && !st.S? && !st.M? && !st.MI_A? && !st.MS_A? && !st.II_A? && !st.MS_WB? && !st.MI_WB?
  }

  lemma {:induction false} AccessStarts(st: CState, op: CpuOp)
    requires !Outstanding(st) && CacheStep(st, Cpu(op)).Go?
    ensures var o := CacheStep(st, Cpu(op));
            if op.Replacement? then !Outstanding(o.next) && o.hit.NoHit? else Outstanding(o.next) <==> o.hit.NoHit?
  {
  }

  lemma {:induction false} NoAccessStarts(st: CState, ev: Event)
    requires !Outstanding(st) && !ev.Cpu? && CacheStep(st, ev).Go?
    ensures var o := CacheStep(st, ev); !Outstanding(o.next) && o.hit.NoHit?
  {
  }

  lemma {:induction false} AccessEnds(st: CState, ev: Event)
    requires Outstanding(st) && !ev.Cpu? && CacheStep(st, ev).Go?
    ensures var o := CacheStep(st, ev); Outstanding(o.next) <==> o.hit.NoHit?
  {
  }

  /** A load or store of a line in this state is put aside; in the last three, which
      no run enters, it would be too. */
  predicate PutsAside(st: CState) { st.MS_A? || st.II_A? || st.MS_WB? || st.MI_WB? }

  lemma {:induction false} AccessPutAside(st: CState, op: CpuOp)
    requires !Outstanding(st) && !op.Replacement?
    ensures !CacheStep(st, Cpu(op)).Undefined? && (CacheStep(st, Cpu(op)).Stall? <==> PutsAside(st))
  {
  }

  /** The states agree with the sequencer: an access that is neither put aside nor
      complete at once is in progress, and it completes exactly when the line leaves
      these states. */
  lemma {:induction false} AccessTracked(st: CState, ev: Event)
    requires !(ev.Cpu? && Outstanding(st))
    requires CacheStep(st, ev).Go? || (ev.Cpu? && !ev.op.Replacement?)
    ensures CacheStep(st, ev).Go? <==> !(ev.Cpu? && !ev.op.Replacement? && PutsAside(st))
    ensures var o := CacheStep(st, ev);
            o.Go? ==> if Outstanding(st) || (ev.Cpu? && !ev.op.Replacement?)
                      then Outstanding(o.next) <==> o.hit.NoHit?
                      else !Outstanding(o.next) && o.hit.NoHit?
  {
    if ev.Cpu? && !ev.op.Replacement? { AccessPutAside(st, ev.op); }
    if !CacheStep(st, ev).Go? {}
    else if ev.Cpu? { AccessStarts(st, ev.op); }
    else if Outstanding(st) { AccessEnds(st, ev); }
    else { NoAccessStarts(st, ev); }
  }

  function OnLoad(st: CState): Outcome {
    match st
    case I => Issues(IS_AD, GETS, false)
    case S | M | MI_A | SM_AD | SM_A | SM_D | SM_DS | SM_DSI | SM_DI => Completes(st, LoadHit)
    case IM_W => Undefined
    case _ => Stall
  }

  function OnStore(st: CState): Outcome {
    match st
    case I => Issues(IM_AD, GETM, false)
    case S => Issues(SM_W, UPG, false)
    case M | MI_A => Completes(st, StoreHit)
    case IM_W => Undefined
    case _ => Stall
  }

  function OnReplacement(st: CState): Outcome {
    match st
    case S => To(I)
    case M => PutsM(MI_A)
    case I | IM_W => Undefined
    case _ => Stall
  }

  function OnOwnGETS(st: CState): Outcome {
    match st
    case IS_AD => To(IS_D)
    case IS_A => Completes(S, LoadHit)
    case _ => Undefined
  }

  function OnOwnGETM(st: CState): Outcome {
    match st
    case IM_AD => To(IM_D)
    case IM_D | IM_DI => To(st)
    case IM_A | SM_A => Completes(M, StoreHit)
    case SM_AD => To(SM_D)
    case _ => Undefined
  }

  function OnOwnUPG(st: CState): Outcome {
    match st
    case SM_W => Completes(M, StoreHit)
    case IM_W => Issues(IM_D, GETM, true)
    case _ => Undefined
  }

  function OnOtherGETS(st: CState): Outcome {
    match st
    case IM_D => To(IM_DS)
    case SM_D => To(SM_DS)
    case M => PutsM(MS_A)
    case MS_WB | MI_WB => Stall
    case _ => To(st)
  }

  function OnOtherGETM(st: CState): Outcome {
    match st
    case IS_D => To(IS_DI)
    case IM_D | IM_DS => To(IM_DI)
    case S => To(I)
    case SM_W => To(IM_W)
    case SM_AD => To(IM_AD)
    case SM_A => To(IM_A)
    case SM_D => To(SM_DI)
    case SM_DS => To(SM_DSI)
    case M => PutsM(MI_A)
    case MS_A => To(MI_A)
    case MS_WB | MI_WB => Stall
    case _ => To(st)
  }

  function OnOtherUPG(st: CState): Outcome {
    match st
    case IS_D => To(IS_DI)
    case IM_DS => To(IM_DI)
    case S => To(I)
    case SM_W => To(IM_W)
    case SM_AD => To(IM_AD)
    case SM_D => To(SM_DI)
    case M => PutsM(MI_A)
    case SM_A | SM_DS | MS_WB | MI_WB => Undefined
    case _ => To(st)
  }

  function OnOwnPUTM(st: CState): Outcome {
    match st
    case MI_A => Sends(I)
    case MS_A => Sends(S)
    case II_A => To(I)
    case _ => Undefined
  }

  function OnOtherPUTM(st: CState): Outcome {
    match st
    case IS_A | SM_AD | SM_A | SM_D | SM_DS | SM_DSI | SM_DI => Undefined
    case MS_WB | MI_WB => Stall
    case _ => To(st)
  }

  function OnData(st: CState): Outcome {
    match st
    case IS_AD => Fills(IS_A, NoHit, false, false)
    case IM_AD => Fills(IM_A, NoHit, false, false)
    case SM_AD => Fills(SM_A, NoHit, false, false)
    case IS_D => Fills(S, LoadHit, false, false)
    case IS_DI => Fills(I, LoadHit, false, false)
    case IM_D | SM_D => Fills(M, StoreHit, false, false)
    case IM_DS => Fills(MS_A, StoreHit, true, false)
    case IM_DI => Fills(MI_A, StoreHit, true, false)
    case IM_DSI | SM_DSI | SM_DI => Fills(I, StoreHit, false, true)
    case SM_DS => Fills(S, StoreHit, false, true)
    case I | S | M | II_A => To(st)
    case _ => Undefined
  }

  /** Directory states. */
  datatype DState = DI | DIS | DIM | DM | DM_D | DMI

  /** Directory events; a GETM from the recorded owner is the separate event GETMO. */
  datatype DEvent = DGETS | DGETM | DGETMO | DUPG | DPUTM | DData | DMemory

  datatype OwnerOp = Keep | Requestor | Clear

  /** What a directory transition does.  `DRetry` changes state and leaves the
      message at the head of its queue. */
  datatype DOutcome =
    | DUndefined
    | DStall
    | DRetry(next: DState)
    | DGo(next: DState, owner: OwnerOp, fetch: bool, reply: bool, write: bool, wake: bool)

  function DTo(st: DState): DOutcome {
    DGo(st, Keep, false, false, false, false)
  }

  /** Start a memory fetch for the requestor. */
  function Fetch(st: DState, owner: OwnerOp): DOutcome {
    DGo(st, owner, true, false, false, false)
  }

  /** Forward the fetched block and look again at the stalled requests. */
  function Reply(st: DState): DOutcome {
    DGo(st, Keep, false, true, false, true)
  }

  /** Take a write-back: memory is written and the line has no owner any more. */
  function WriteBack(): DOutcome {
    DGo(DI, Clear, false, false, true, true)
  }

  function DirStep(st: DState, ev: DEvent): DOutcome {
    match (st, ev)
    case (DI, DGETS) => Fetch(DIS, Keep)
    case (DI, DGETM) => Fetch(DIM, Requestor)
    case (DI, DUPG) => DGo(DM, Requestor, false, false, false, false)
    case (DIS, DMemory) => Reply(DI)
    case (DIM, DMemory) => Reply(DM)
    case (DIS, DGETS) => DStall
    case (DIS, DGETM) => DStall
    case (DIS, DUPG) => DStall
    case (DIM, DGETS) => DStall
    case (DIM, DGETM) => DStall
    case (DIM, DUPG) => DStall
    case (DM, DGETS) => DRetry(DM_D)
    case (DM, DGETM) => DRetry(DM_D)
    case (DM, DGETMO) => Fetch(DIM, Keep)
    case (DM_D, DGETMO) => Fetch(DIM, Keep)
    case (DM, DUPG) => DTo(DM)
    case (DM_D, DUPG) => DTo(DM_D)
    case (DM_D, DGETS) => DStall
    case (DM_D, DGETM) => DStall
    case (DM_D, DPUTM) => DTo(DM_D)
    case (DM, DPUTM) => DTo(DMI)
    case (DM_D, DData) => WriteBack()
    case (DM, DData) => WriteBack()
    case (DMI, DData) => WriteBack()
    case (DMI, DGETS) => DStall
    case (DMI, DGETM) => DStall
    case (DMI, DUPG) => DStall
    case (DMI, DPUTM) => DStall
    case _ => DUndefined
  }
}
