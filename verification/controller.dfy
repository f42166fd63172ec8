// Controller configuration and status (sections 3.1.5 and 3.1.6 of NVM Express 1.4).

module Controllers {
  import opened Bytes

  const RDY: bv32 := 0x1
  const CFS: bv32 := 0x2
  const SHST_CMPLT: bv32 := 0x8

  predicate CcEn(cc: bv32) { cc & 0x1 != 0 }

  predicate CcShn(cc: bv32) { (cc >> 14) & 0x3 != 0 }

  /** Entry sizes, page size, arbitration and command set that the controller can run with. */
  predicate ValidSizes(cc: bv32)
  {
    && (cc >> 16) & 0xf == 6
    && (cc >> 20) & 0xf == 4
    && (cc >> 7) & 0xf == 0
    && (cc >> 11) & 0x7 == 0
    && (cc >> 4) & 0x7 == 0
  }

  predicate Ready(csts: bv32) { csts & RDY != 0 }

  predicate Fatal(csts: bv32) { csts & CFS != 0 }

  predicate ShutdownComplete(csts: bv32) { csts & SHST_CMPLT != 0 }

  function ClearReady(csts: bv32): bv32 { csts & !RDY }

  function SetShutdown(csts: bv32): bv32 { csts | SHST_CMPLT }

  function ClearShutdown(csts: bv32): bv32 { csts & !SHST_CMPLT }

  function SetFatal(csts: bv32): bv32 { csts | CFS }

  /** An Async Event command that waits: its place in the stream and its id. */
  datatype AsyncRequest = AsyncRequest(cmd: nat, id: u16)

  datatype Regs = Regs(cc: bv32, csts: bv32)

  /** Enabling and disabling, seen from the CC before. */
  function EnableStep(r: Regs, value: bv32): Regs
  {
    if CcEn(value) && !CcEn(r.cc) then Regs(value, if ValidSizes(value) then RDY else CFS)
    else if !CcEn(value) && CcEn(r.cc) then Regs(0, ClearReady(r.csts))
    else Regs(value, r.csts)
  }

  /** Shutdown, seen from the CC before and the registers that enabling or disabling left. */
  function ShutdownStep(before: bv32, r: Regs): Regs
  {
    if CcShn(r.cc) && !CcShn(before) then Regs(0, SetShutdown(ClearReady(r.csts)))
    else if !CcShn(r.cc) && CcShn(before) then Regs(r.cc, ClearShutdown(r.csts))
    else r
  }

  /** The registers after a write of CC. */
  function WriteCc(r: Regs, value: bv32): Regs
  {
    ShutdownStep(r.cc, EnableStep(r, value))
  }

  class Controller {
    var cc: bv32
    var csts: bv32
    var aenBitEnabled: bool
    var asyncEventPendingRequests: seq<AsyncRequest>

    ghost function Registers(): Regs
      reads this
    {
      Regs(cc, csts)
    }

    constructor ()
      ensures Registers() == Regs(0, 0) && !aenBitEnabled && asyncEventPendingRequests == []
    {
      cc, csts, aenBitEnabled, asyncEventPendingRequests := 0, 0, false, [];
    }

    method Clear()
      modifies this`cc, this`csts
      ensures Registers() == Regs(0, ClearReady(old(csts)))
    {
      csts := ClearReady(csts);
      cc := 0;
    }

    method Start()
      modifies this`csts
      ensures csts == if ValidSizes(cc) then RDY else CFS
    {
      if !ValidSizes(cc) {
        csts := CFS;
        return;
      }
      csts := RDY;
    }

    method Enable(value: bv32)
      modifies this`cc, this`csts
      ensures Registers() == EnableStep(old(Registers()), value)
    {
      var before := cc;
      cc := value;
      if CcEn(cc) && !CcEn(before) {
        Start();
      }
      if !CcEn(cc) && CcEn(before) {
        Clear();
      }
    }

    method Shutdown(before: bv32)
      modifies this`cc, this`csts
      ensures Registers() == ShutdownStep(before, old(Registers()))
    {
      assert !CcShn(0);
      hide CcShn, ClearReady, SetShutdown, ClearShutdown;
      if CcShn(cc) && !CcShn(before) {
        Clear();
        csts := SetShutdown(csts);
      }
      if !CcShn(cc) && CcShn(before) {
        csts := ClearShutdown(csts);
      }
    }

    method UpdateControllerConfiguration(value: bv32)
      modifies this`cc, this`csts
      ensures Registers() == WriteCc(old(Registers()), value)
    {
      var before := cc;
      Enable(value);
      Shutdown(before);
    }

    /** The keep-alive timer ran out. */
    method KeepAliveExpired() returns (signalled: bool)
      modifies this`csts
      ensures Registers() == Expire(old(Registers()))
      ensures signalled <==> !Fatal(old(csts))
    {
      signalled := !Fatal(csts);
      if signalled {
        csts := SetFatal(csts);
      }
    }
  }

  function Expire(r: Regs): Regs
  {
    Regs(r.cc, SetFatal(r.csts))
  }

  datatype Event = Cc(value: bv32) | Expired

  function Run(evs: seq<Event>): Regs
  {
    if evs == [] then Regs(0, 0)
    else match evs[|evs| - 1]
         case Cc(v) => WriteCc(Run(evs[..|evs| - 1]), v)
         case Expired => Expire(Run(evs[..|evs| - 1]))
  }

  /** The values written to CC, in order. */
  function Writes(evs: seq<Event>): seq<bv32>
  {
    if evs == [] then []
    else Writes(evs[..|evs| - 1]) + (if evs[|evs| - 1].Cc? then [evs[|evs| - 1].value] else [])
  }

  /** A write that leaves the controller enabled. */
  predicate Keeps(v: bv32) { CcEn(v) && !CcShn(v) }

  ghost predicate Safe(r: Regs)
  {
    && !CcShn(r.cc)
    && (Ready(r.csts) ==> CcEn(r.cc))
    && (CcEn(r.cc) ==> Ready(r.csts) || Fatal(r.csts))
    && (CcEn(r.cc) ==> !ShutdownComplete(r.csts))
    && !(Ready(r.csts) && ShutdownComplete(r.csts))
  }

  /** Each change of the status touches one bit. */
  lemma ClearReadyBits(csts: bv32)
    ensures !Ready(ClearReady(csts)) && Fatal(ClearReady(csts)) == Fatal(csts)
    ensures ShutdownComplete(ClearReady(csts)) == ShutdownComplete(csts)
  {
    assert ClearReady(csts) & CFS == csts & CFS;
    assert ClearReady(csts) & SHST_CMPLT == csts & SHST_CMPLT;
  }

  lemma SetShutdownBits(csts: bv32)
    ensures Ready(SetShutdown(csts)) == Ready(csts) && Fatal(SetShutdown(csts)) == Fatal(csts)
    ensures ShutdownComplete(SetShutdown(csts))
  {
  }

  lemma SetFatalBits(csts: bv32)
    ensures Ready(SetFatal(csts)) == Ready(csts) && Fatal(SetFatal(csts))
    ensures ShutdownComplete(SetFatal(csts)) == ShutdownComplete(csts)
  {
  }

  lemma ConstantBits()
    ensures !CcEn(0) && !CcShn(0)
    ensures Ready(RDY) && !Ready(CFS) && Fatal(CFS) && !ShutdownComplete(RDY) && !ShutdownComplete(CFS)
  {
  }

  lemma WriteSafe(r: Regs, v: bv32)
    requires Safe(r)
    ensures Safe(WriteCc(r, v))
    ensures CcEn(WriteCc(r, v).cc) <==> Keeps(v)
    ensures Ready(WriteCc(r, v).csts) <==> Keeps(v) && if CcEn(r.cc) then Ready(r.csts) else ValidSizes(v)
    ensures ShutdownComplete(WriteCc(r, v).csts)
       <==> if CcShn(v) && (CcEn(v) || !CcEn(r.cc)) then true else !CcEn(v) && ShutdownComplete(r.csts)
  {
    hide CcEn, CcShn, ValidSizes, Ready, Fatal, ShutdownComplete, ClearReady, SetShutdown, ClearShutdown;
    ConstantBits();
    ClearReadyBits(r.csts);
    ClearReadyBits(EnableStep(r, v).csts);
    SetShutdownBits(ClearReady(EnableStep(r, v).csts));
  }

  lemma ExpireSafe(r: Regs)
    requires Safe(r)
    ensures Safe(Expire(r)) && Ready(Expire(r).csts) == Ready(r.csts)
    ensures ShutdownComplete(Expire(r).csts) == ShutdownComplete(r.csts)
  {
    SetFatalBits(r.csts);
  }

  /** Write `k` enabled the controller with valid sizes, and every later one left it enabled. */
  ghost predicate EnabledSince(ws: seq<bv32>, k: nat)
  {
    && k < |ws| && Keeps(ws[k]) && ValidSizes(ws[k])
    && (k == 0 || !Keeps(ws[k - 1]))
    && forall j :: k < j < |ws| ==> Keeps(ws[j])
  }

  /** Write `k` asked for shutdown, not while also disabling a running controller, and none later set EN. */
  ghost predicate ShutDownSince(ws: seq<bv32>, k: nat)
  {
    && k < |ws| && CcShn(ws[k])
    && (CcEn(ws[k]) || k == 0 || !Keeps(ws[k - 1]))
    && forall j :: k < j < |ws| ==> !CcEn(ws[j])
  }

  ghost predicate Since(ws: seq<bv32>, enabled: bool)
  {
    if enabled then exists k: nat :: EnabledSince(ws, k) else exists k: nat :: ShutDownSince(ws, k)
  }

  lemma EnabledSnoc(ws: seq<bv32>, v: bv32)
    ensures Since(ws + [v], true)
       <==> Keeps(v) && if ws != [] && Keeps(ws[|ws| - 1]) then Since(ws, true) else ValidSizes(v)
  {
    var ws' := ws + [v];
    assert forall j :: 0 <= j < |ws| ==> ws'[j] == ws[j];
    if k: nat :| EnabledSince(ws', k) {
      assert k < |ws| ==> Keeps(ws'[|ws|]) && EnabledSince(ws, k);
      if k < |ws| - 1 { assert Keeps(ws'[|ws| - 1]); }
    }
    if Keeps(v) {
      if ws != [] && Keeps(ws[|ws| - 1]) {
        if k: nat :| EnabledSince(ws, k) { assert EnabledSince(ws', k); }
      } else if ValidSizes(v) {
        assert EnabledSince(ws', |ws|);
      }
    }
  }

  lemma ShutDownSnoc(ws: seq<bv32>, v: bv32)
    ensures Since(ws + [v], false)
       <==> if CcShn(v) && (CcEn(v) || ws == [] || !Keeps(ws[|ws| - 1])) then true else !CcEn(v) && Since(ws, false)
  {
    var ws' := ws + [v];
    assert forall j :: 0 <= j < |ws| ==> ws'[j] == ws[j];
    if k: nat :| ShutDownSince(ws', k) {
      assert k < |ws| ==> !CcEn(ws'[|ws|]) && ShutDownSince(ws, k);
    }
    if CcShn(v) && (CcEn(v) || ws == [] || !Keeps(ws[|ws| - 1])) {
      assert ShutDownSince(ws', |ws|);
    } else if !CcEn(v) {
      if k: nat :| ShutDownSince(ws, k) { assert ShutDownSince(ws', k); }
    }
  }

  /** What the writes so far say about the registers. */
  ghost predicate Described(r: Regs, ws: seq<bv32>)
  {
    && Safe(r)
    && (CcEn(r.cc) <==> ws != [] && Keeps(ws[|ws| - 1]))
    && (Ready(r.csts) <==> Since(ws, true))
    && (ShutdownComplete(r.csts) <==> Since(ws, false))
  }

  lemma DescribedStart()
    ensures Described(Regs(0, 0), [])
  {
    assert !CcEn(0) && !CcShn(0) && !Ready(0) && !Fatal(0) && !ShutdownComplete(0);
  }

  lemma DescribedWrite(r: Regs, ws: seq<bv32>, v: bv32)
    requires Described(r, ws)
    ensures Described(WriteCc(r, v), ws + [v])
  {
    WriteSafe(r, v);
    EnabledSnoc(ws, v);
    ShutDownSnoc(ws, v);
    hide WriteCc, CcEn, CcShn, ValidSizes, Keeps, Ready, ShutdownComplete, Safe, Since;
    KeepsIs(v);
  }

  lemma KeepsIs(v: bv32)
    ensures Keeps(v) <==> CcEn(v) && !CcShn(v)
  {
  }

  lemma DescribedExpired(r: Regs, ws: seq<bv32>)
    requires Described(r, ws)
    ensures Described(Expire(r), ws)
  {
    hide Since, Keeps;
    ExpireSafe(r);
  }

  lemma {:induction false} RunDescribed(evs: seq<Event>)
    ensures Described(Run(evs), Writes(evs))
  {
    hide Described, WriteCc, Expire;
    if evs == [] {
      DescribedStart();
    } else {
      var rest := evs[..|evs| - 1];
      RunDescribed(rest);
      match evs[|evs| - 1] {
        case Cc(v) => DescribedWrite(Run(rest), Writes(rest), v);
        case Expired =>
          DescribedExpired(Run(rest), Writes(rest));
          assert Writes(evs) == Writes(rest);
      }
    }
  }

  /** Safety over every history of writes and timeouts, and what the history says about the status:
      ready exactly since a valid enabling write that nothing undid, shut down exactly since a
      shutdown that no later write ended. */
  lemma StatusOfHistory(evs: seq<Event>)
    ensures Safe(Run(evs))
    ensures CcEn(Run(evs).cc) <==> Writes(evs) != [] && Keeps(Writes(evs)[|Writes(evs)| - 1])
    ensures Ready(Run(evs).csts) <==> exists k: nat :: EnabledSince(Writes(evs), k)
    ensures ShutdownComplete(Run(evs).csts) <==> exists k: nat :: ShutDownSince(Writes(evs), k)
  {
    hide Safe, CcEn, Keeps, Ready, ShutdownComplete, EnabledSince, ShutDownSince, Run, Writes;
    RunDescribed(evs);
    assert Since(Writes(evs), true) <==> exists k: nat :: EnabledSince(Writes(evs), k);
    assert Since(Writes(evs), false) <==> exists k: nat :: ShutDownSince(Writes(evs), k);
  }

  /** A shutdown request is answered by shutdown-complete exactly when it does not disable a running
      controller in the same write. */
  lemma ShutdownAnswered(evs: seq<Event>, v: bv32)
    requires CcShn(v)
    ensures ShutdownComplete(Run(evs + [Cc(v)]).csts) <==> CcEn(v) || !CcEn(Run(evs).cc)
  {
    StatusOfHistory(evs);
    assert (evs + [Cc(v)])[..|evs|] == evs;
    WriteSafe(Run(evs), v);
  }

  /** A timeout sets bit 1 of the status, whatever happened before, and nothing else. */
  lemma TimeoutFails(evs: seq<Event>)
    ensures Run(evs + [Expired]) == Regs(Run(evs).cc, Run(evs).csts | 0x2)
    ensures Fatal(Run(evs + [Expired]).csts)
  {
    assert (evs + [Expired])[..|evs|] == evs;
    SetFatalBits(Run(evs).csts);
  }

  predicate Bit0(x: bv32) { x & 0x1 == 0x1 }

  /** Bits 14 and 15: the shutdown notification. */
  predicate Bits14(x: bv32) { x & 0xc000 != 0 }

  /** Entries of 64 and 16 bytes, and the lowest page size, arbitration and command set, in one mask. */
  predicate Sizes(x: bv32) { x & 0xff_3ff0 == 0x46_0000 }

  function Without0(x: bv32): bv32 { x & 0xffff_fffe }

  function With3(x: bv32): bv32 { x | 0x8 }

  /** The registers after a write, bit by bit. Enabling sets the status to ready or to failed; disabling takes bit 0
      away and clears CC; a shutdown then takes bit 0 away, sets bit 3 and clears CC. */
  function Written(r: Regs, v: bv32): Regs
  {
    var status := if Bit0(v) && !Bit0(r.cc) then (if Sizes(v) then 0x1 else 0x2)
                  else if !Bit0(v) && Bit0(r.cc) then Without0(r.csts) else r.csts;
    if !Bit0(v) && Bit0(r.cc) then Regs(0, status)
    else if Bits14(v) then Regs(0, With3(Without0(status)))
    else Regs(v, status)
  }

  lemma SizesMask(x: bv32)
    ensures ValidSizes(x) <==> Sizes(x)
  {
  }

  lemma ConfigMasks(x: bv32)
    ensures (CcEn(x) <==> Bit0(x)) && (CcShn(x) <==> Bits14(x))
  {
  }

  lemma StatusMasks(x: bv32)
    ensures ClearReady(x) == Without0(x) && SetShutdown(x) == With3(x)
  {
  }

  lemma WriteMasks(r: Regs, v: bv32)
    requires !CcShn(r.cc)
    ensures WriteCc(r, v) == Written(r, v)
  {
    hide CcEn, CcShn, ValidSizes, ClearReady, SetShutdown, ClearShutdown, Bit0, Bits14, Sizes, Without0, With3;
    SizesMask(v);
    ConfigMasks(v);
    ConfigMasks(r.cc);
    ConstantBits();
    StatusMasks(r.csts);
    StatusMasks(EnableStep(r, v).csts);
    StatusMasks(ClearReady(EnableStep(r, v).csts));
  }

  /** Every write to a controller in a reachable state does this. */
  lemma WriteExact(evs: seq<Event>, v: bv32)
    ensures Run(evs + [Cc(v)]) == Written(Run(evs), v)
  {
    hide Written, WriteCc, Writes, Keeps, EnabledSince, ShutDownSince, Ready, ShutdownComplete;
    StatusOfHistory(evs);
    assert (evs + [Cc(v)])[..|evs|] == evs;
    WriteMasks(Run(evs), v);
  }
}
