/** The receiving end: from a message on the channel to a dispatch on the destination chain. */
module Delivery {
  import opened Types
  import opened Scale
  import opened Wire
  import opened Xcm
  import opened Admission
  import opened PalletSpec

  /** The account that a sibling parachain controls: "sibl", its id and zeros. */
  function SiblingAccount(para: u32): AccountId {
    [0x73, 0x69, 0x62, 0x6c] + EncodeU32(para) + seq(24, _ => 0)
  }

  /** One unit of weight for each instruction, as the runtime's weigher charges at least. */
  function ProgramWeight(p: Program): Weight {
    Weight(1_000_000_000 * |p|, 64 * 1024 * |p|)
  }

  datatype Delivered = Rejected | Dispatched(outcome: Outcome) {
    predicate Accepted() {
      Dispatched? && outcome.result.Ok?
    }
  }

  /**
   * Runs a message from parachain `source` on the parachain `cfg.destinationPara`, whose
   * accounts are iterated in the order `owners`. The chain has no route out, so a call that
   * arrives cannot send on. Beyond the barrier only programs of the shape that a graduation
   * has are executed here.
   */
  function Execute(cfg: Config, source: u32, owners: seq<AccountId>, message: Outbound, s: Storage): Delivered {
    var p, origin := message.program, SiblingLocation(source);
    if message.dest != Location(1, [Parachain(cfg.destinationPara)]) then Rejected
    else if !Barrier(Documented(), cfg.destinationPara, origin, p, ProgramWeight(p), NO_CREDIT) then Rejected
    else if |p| != 3 || !p[0].UnpaidExecution? || !p[1].Transact? || !p[2].SetTopic? then Rejected
    else if !p[1].kind.SovereignAccount? then Rejected
    else
      var decoded := DecodeRuntimeCall(cfg, p[1].call);
      if decoded.Malformed? || decoded.rest != [] || !SafeCallFilter(decoded.value) then Rejected
      else Dispatched(Dispatch(cfg, Env(Refused, owners), s, Signed(SiblingAccount(source)), decoded.value.call))
  }

  /** The account of a sibling: the letters "sibl", its number in four bytes, 24 zeros. */
  lemma SiblingAccountBytes(para: u32)
    ensures |SiblingAccount(para)| == 32 && SiblingAccount(para)[..4] == [115, 105, 98, 108]
    ensures SiblingAccount(para)[4..8] == [para % 256, para / 256 % 256, para / 0x1_0000 % 256, para / 0x100_0000]
    ensures forall i :: 8 <= i < 32 ==> SiblingAccount(para)[i] == 0
  {
    U32Bytes(para);
  }

  /** The weight of a program of three instructions. */
  lemma ThreeInstructions(p: Program)
    requires |p| == 3
    ensures ProgramWeight(p) == Weight(3_000_000_000, 196_608)
  {}

  /**
   * From a sibling every call of the pallet is dispatched, with the sibling's account as
   * signer, if it asks for free execution without limit and is addressed to this chain.
   */
  lemma CallsAreExecuted(
      cfg: Config, source: u32, owners: seq<AccountId>, check: Option<Location>, fallback: Option<Weight>,
      call: Call, topic: seq<byte>, s: Storage)
    requires call.WellTyped(cfg)
    ensures var program := [UnpaidExecution(Unlimited, check),
                            Transact(SovereignAccount, fallback, EncodeRuntimeCall(call)), SetTopic(topic)];
            Execute(cfg, source, owners, Outbound(Location(1, [Parachain(cfg.destinationPara)]), program), s) ==
              Dispatched(Dispatch(cfg, Env(Refused, owners), s, Signed(SiblingAccount(source)), call))
  {
    var transact := Transact(SovereignAccount, fallback, EncodeRuntimeCall(call));
    var p := [UnpaidExecution(Unlimited, check), transact, SetTopic(topic)];
    assert p == [UnpaidExecution(Unlimited, check)] + [transact, SetTopic(topic)];
    assert StripTopic(p) == [UnpaidExecution(Unlimited, check), transact];
    LimitedExecution(cfg.destinationPara, source, Unlimited, check, [transact, SetTopic(topic)], ProgramWeight(p));
    RuntimeCallRoundTrip(cfg, call, []);
    assert EncodeRuntimeCall(call) + [] == EncodeRuntimeCall(call);
  }

  /** Nothing else is dispatched. */
  lemma OnlyCallsAreExecuted(cfg: Config, source: u32, owners: seq<AccountId>, message: Outbound, s: Storage)
    requires Execute(cfg, source, owners, message, s).Dispatched?
    ensures message.dest == Location(1, [Parachain(cfg.destinationPara)])
    ensures var p := message.program;
            && |p| == 3 && p[0].UnpaidExecution? && p[1].Transact? && p[1].kind == SovereignAccount && p[2].SetTopic?
            && exists call: Call :: call.WellTyped(cfg) && p[1].call == EncodeRuntimeCall(call)
                 && Execute(cfg, source, owners, message, s) ==
                      Dispatched(Dispatch(cfg, Env(Refused, owners), s, Signed(SiblingAccount(source)), call))
  {
    var payload := message.program[1].call;
    var decoded := DecodeRuntimeCall(cfg, payload);
    RuntimeCallExact(cfg, payload);
    assert EncodeRuntimeCall(decoded.value.call) + [] == EncodeRuntimeCall(decoded.value.call);
  }

  /** A parcel passes the barrier, decodes to the call that was encoded and admits the student it carries. */
  lemma ParcelAdmits(
      cfg: Config, source: u32, owners: seq<AccountId>,
      student: Student, owner: AccountId, topic: seq<byte>, s: Storage)
    requires student.Fits(cfg)
    ensures Execute(cfg, source, owners, Parcel(cfg, student, owner, topic), s) == Dispatched(Admit(s, owner, student))
  {
    var call, fallback := ReceiveStudent(student, owner), Some(Weight(1_000_000_000, 64 * 1024));
    TopicIsTransparent(GraduationProgram(student, owner), topic);
    CallsAreExecuted(cfg, source, owners, None, fallback, call, topic, s);
    assert Parcel(cfg, student, owner, topic).program ==
             [UnpaidExecution(Unlimited, None), Transact(SovereignAccount, fallback, EncodeRuntimeCall(call)),
              SetTopic(topic)];
  }
}
